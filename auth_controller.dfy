/**
 * Sign-up, sign-in and sign-out (src/controllers/auth.controller.js). Each
 * handler is an early-return chain over the results of its collaborators: the
 * users table, password hashing and comparison, and token signing, all given
 * as oracles. The outcome records the response and the collaborator calls
 * made, in order.
 */
module AuthController {
  import opened Wrappers
  import opened Store
  import Http
  import opened Jwt

  /** The row `select("id")` returns for an existing user. */
  datatype IdRow = IdRow(id: string)

  /** A stored user, as `select("*")` and the insert's `select()` return it. */
  datatype UserRow = UserRow(id: string, email: string, passwordHash: string, role: Option<string>)

  /** The row sign-up inserts. */
  datatype NewUser = NewUser(email: Option<string>, passwordHash: string, role: string)

  /** The user as the responses show it. */
  datatype UserView = UserView(id: string, email: string, role: string)

  datatype AuthBody =
    | Error(error: string)
    | Message(message: string)
    | Created(message: string, user: UserView)
    | LoggedIn(message: string, token: string, user: UserView)

  /** The collaborator calls a handler makes. */
  datatype Effect =
    | FindUser(email: Option<string>)
    | HashPassword(password: Option<string>)
    | InsertUser(row: NewUser)
    | ComparePassword(password: Option<string>, hash: string)
    | SignToken(request: SignRequest)

  datatype Outcome = Outcome(response: Http.Response<AuthBody>, effects: seq<Effect>)

  /** A string field of the JSON request body; None when absent. */
  function Field(body: map<string, string>, name: string): Option<string>
  {
    if name in body then Some(body[name]) else None
  }

  /** `role || "user"`: a NULL or empty stored role reads as "user". */
  function RoleOrUser(role: Option<string>): (r: string)
    ensures r != ""
    ensures r == "user" <==> role.None? || role.value == "" || role.value == "user"
    ensures role.Some? && role.value != "" ==> r == role.value
  {
    if role.None? || role.value == "" then "user" else role.value
  }

  /** The user object of a response: id, email and the role read with `|| "user"`; never the hash. */
  function ViewOf(row: UserRow): (v: UserView)
    ensures v.id == row.id && v.email == row.email
    ensures v.role == RoleOrUser(row.role) && v.role != ""
  {
    UserView(row.id, row.email, RoleOrUser(row.role))
  }

  const InternalError: Http.Response<AuthBody> := Http.Response(500, Error("Internal server error"))
  const InvalidCredentials: Http.Response<AuthBody> := Http.Response(401, Error("Invalid credentials"))
  const AlreadyExists: Http.Response<AuthBody> := Http.Response(400, Error("User already exists"))

  /** The lookup found a user with this email (its error, if any, plays no part). */
  predicate Existing(lookup: Call<Reply<IdRow>>)
  {
    lookup.Returned? && lookup.value.data.Some?
  }

  function SignUp(
    body: map<string, string>,
    findByEmail: Option<string> -> Call<Reply<IdRow>>,
    hash: Option<string> -> Call<string>,
    insert: NewUser -> Call<Reply<UserRow>>): (o: Outcome)
    ensures var email, password := Field(body, "email"), Field(body, "password");
      // collaborators are called in this order, each only after the one before succeeded
      && 1 <= |o.effects| <= 3
      && o.effects[0] == FindUser(email)
      && (|o.effects| >= 2 ==>
            findByEmail(email).Returned? && findByEmail(email).value.data.None?
            && o.effects[1] == HashPassword(password))
      // the inserted row has the request's email, the hash, and always role "user"
      && (|o.effects| == 3 ==>
            hash(password).Returned?
            && o.effects[2] == InsertUser(NewUser(email, hash(password).value, "user")))
    ensures o.response.status in {201, 400, 500}
    ensures Existing(findByEmail(Field(body, "email")))
        <==> o.response == AlreadyExists && o.effects == [FindUser(Field(body, "email"))]
    ensures o.response.status == 201 ==>
      |o.effects| == 3 && var result := insert(o.effects[2].row);
      result.Returned? && result.value.error.None? && result.value.data.Some?
      && o.response.body == Created("User created successfully", ViewOf(result.value.data.value))
    // the user is created exactly when every collaborator succeeds
    ensures var email, password := Field(body, "email"), Field(body, "password");
      o.response.status == 201
      <==> findByEmail(email).Returned? && findByEmail(email).value.data.None?
           && hash(password).Returned?
           && var result := insert(NewUser(email, hash(password).value, "user"));
              result.Returned? && result.value.error.None? && result.value.data.Some?
    // a thrown lookup, hash or insert, or an insert that returns no row, is an internal error
    ensures var email, password := Field(body, "email"), Field(body, "password");
      o.response == InternalError
      <==> findByEmail(email).Threw?
           || (findByEmail(email).value.data.None?
               && (hash(password).Threw?
                   || (var result := insert(NewUser(email, hash(password).value, "user"));
                       result.Threw? || (result.value.error.None? && result.value.data.None?))))
  {
    var email, password := Field(body, "email"), Field(body, "password");
    var lookedUp := [FindUser(email)];
    match findByEmail(email)
    case Threw(_) => Outcome(InternalError, lookedUp)
    case Returned(existing) =>
      if existing.data.Some? then Outcome(AlreadyExists, lookedUp)
      else
        var hashed := lookedUp + [HashPassword(password)];
        match hash(password)
        case Threw(_) => Outcome(InternalError, hashed)
        case Returned(passwordHash) =>
          var row := NewUser(email, passwordHash, "user");
          var inserted := hashed + [InsertUser(row)];
          match insert(row)
          case Threw(_) => Outcome(InternalError, inserted)
          case Returned(result) =>
            if result.error.Some? then Outcome(Http.Response(400, Error(result.error.value.message)), inserted)
            else if result.data.None? then Outcome(InternalError, inserted)  // reading `newUser.id` of null throws
            else Outcome(Http.Response(201, Created("User created successfully", ViewOf(result.data.value))), inserted)
  }

  /** Whatever the body says about a role, the row sign-up inserts has role "user". */
  lemma SignUpForcesUserRole(
    body: map<string, string>,
    findByEmail: Option<string> -> Call<Reply<IdRow>>,
    hash: Option<string> -> Call<string>,
    insert: NewUser -> Call<Reply<UserRow>>,
    i: nat)
    requires i < |SignUp(body, findByEmail, hash, insert).effects|
    requires SignUp(body, findByEmail, hash, insert).effects[i].InsertUser?
    ensures SignUp(body, findByEmail, hash, insert).effects[i].row.role == "user"
    ensures SignUp(body[("role") := "admin"], findByEmail, hash, insert) == SignUp(body, findByEmail, hash, insert)
  {
    assert Field(body[("role") := "admin"], "email") == Field(body, "email");
    assert Field(body[("role") := "admin"], "password") == Field(body, "password");
  }

  /** Only the presence of an existing row decides rejection: the lookup's error is ignored. */
  lemma SignUpIgnoresLookupError(
    body: map<string, string>,
    find1: Option<string> -> Call<Reply<IdRow>>,
    find2: Option<string> -> Call<Reply<IdRow>>,
    hash: Option<string> -> Call<string>,
    insert: NewUser -> Call<Reply<UserRow>>)
    requires find1(Field(body, "email")).Returned? && find2(Field(body, "email")).Returned?
    requires find1(Field(body, "email")).value.data == find2(Field(body, "email")).value.data
    ensures SignUp(body, find1, hash, insert) == SignUp(body, find2, hash, insert)
  {
  }

  /** A failed insert answers 400 with the store's own message. */
  lemma SignUpInsertError(
    body: map<string, string>,
    findByEmail: Option<string> -> Call<Reply<IdRow>>,
    hash: Option<string> -> Call<string>,
    insert: NewUser -> Call<Reply<UserRow>>,
    e: StoreError)
    requires findByEmail(Field(body, "email")).Returned? && findByEmail(Field(body, "email")).value.data.None?
    requires hash(Field(body, "password")).Returned?
    requires insert(NewUser(Field(body, "email"), hash(Field(body, "password")).value, "user")).Returned?
    requires insert(NewUser(Field(body, "email"), hash(Field(body, "password")).value, "user")).value.error == Some(e)
    ensures SignUp(body, findByEmail, hash, insert).response == Http.Response(400, Error(e.message))
  {
  }

  /** The user a sign-in lookup found, if the lookup neither failed nor came back empty. */
  function FoundUser(lookup: Call<Reply<UserRow>>): (user: Option<UserRow>)
    ensures user.Some? <==> lookup.Returned? && lookup.value.error.None? && lookup.value.data.Some?
    ensures user.Some? ==> user == lookup.value.data
  {
    if lookup.Returned? && lookup.value.error.None? && lookup.value.data.Some? then lookup.value.data else None
  }

  function SignIn(
    body: map<string, string>,
    findByEmail: Option<string> -> Call<Reply<UserRow>>,
    compare: (Option<string>, string) -> Call<bool>,
    sign: SignRequest -> Call<string>): (o: Outcome)
    ensures o.response.status in {200, 401, 500}
    // a lookup failure, a missing user and a wrong password all give the same answer
    ensures o.response.status == 401 ==> o.response == InvalidCredentials
    ensures var lookup := findByEmail(Field(body, "email"));
      o.response == InvalidCredentials
      <==> (lookup.Returned? && FoundUser(lookup).None?)
           || (FoundUser(lookup).Some?
               && compare(Field(body, "password"), FoundUser(lookup).value.passwordHash) == Returned(false))
    // a token is issued only for a matching password, and carries exactly id and email for one hour
    ensures 1 <= |o.effects| <= 3 && o.effects[0] == FindUser(Field(body, "email"))
    // the password is compared only against a user the lookup found, and a token is signed only after a match
    ensures var user := FoundUser(findByEmail(Field(body, "email")));
      |o.effects| >= 2 ==>
        user.Some? && o.effects[1] == ComparePassword(Field(body, "password"), user.value.passwordHash)
        && (|o.effects| == 3 ==> compare(Field(body, "password"), user.value.passwordHash) == Returned(true))
    ensures o.response.status == 200 ==>
      var user := FoundUser(findByEmail(Field(body, "email")));
      user.Some?
      && var request := SignRequest(Claims(user.value.id, user.value.email), "1h");
         compare(Field(body, "password"), user.value.passwordHash) == Returned(true)
         && sign(request).Returned?
         && o.effects[|o.effects| - 1] == SignToken(request)
         && o.response.body == LoggedIn("Login successful", sign(request).value, ViewOf(user.value))
    // sign-in succeeds exactly when the user is found, the password matches and signing returns
    ensures var user := FoundUser(findByEmail(Field(body, "email")));
      o.response.status == 200
      <==> user.Some?
           && compare(Field(body, "password"), user.value.passwordHash) == Returned(true)
           && sign(SignRequest(Claims(user.value.id, user.value.email), "1h")).Returned?
    // a thrown lookup, compare or sign is an internal error
    ensures var lookup := findByEmail(Field(body, "email"));
      var user := FoundUser(lookup);
      o.response == InternalError
      <==> lookup.Threw?
           || (user.Some?
               && (compare(Field(body, "password"), user.value.passwordHash).Threw?
                   || (compare(Field(body, "password"), user.value.passwordHash) == Returned(true)
                       && sign(SignRequest(Claims(user.value.id, user.value.email), "1h")).Threw?)))
  {
    var email, password := Field(body, "email"), Field(body, "password");
    var lookedUp := [FindUser(email)];
    match findByEmail(email)
    case Threw(_) => Outcome(InternalError, lookedUp)
    case Returned(found) =>
      if found.error.Some? || found.data.None? then Outcome(InvalidCredentials, lookedUp)
      else
        var user := found.data.value;
        var compared := lookedUp + [ComparePassword(password, user.passwordHash)];
        match compare(password, user.passwordHash)
        case Threw(_) => Outcome(InternalError, compared)
        case Returned(valid) =>
          if !valid then Outcome(InvalidCredentials, compared)
          else
            var request := SignRequest(Claims(user.id, user.email), "1h");
            var signed := compared + [SignToken(request)];
            match sign(request)
            case Threw(_) => Outcome(InternalError, signed)
            case Returned(token) =>
              Outcome(Http.Response(200, LoggedIn("Login successful", token, ViewOf(user))), signed)
  }

  /** An unknown email and a wrong password cannot be told apart from the response. */
  lemma UnknownEmailLooksLikeWrongPassword(
    body: map<string, string>,
    noUser: Option<string> -> Call<Reply<UserRow>>,
    someUser: Option<string> -> Call<Reply<UserRow>>,
    compare: (Option<string>, string) -> Call<bool>,
    sign: SignRequest -> Call<string>)
    requires noUser(Field(body, "email")).Returned? && noUser(Field(body, "email")).value.data.None?
    requires FoundUser(someUser(Field(body, "email"))).Some?
    requires compare(Field(body, "password"), FoundUser(someUser(Field(body, "email"))).value.passwordHash) == Returned(false)
    ensures SignIn(body, noUser, compare, sign).response == SignIn(body, someUser, compare, sign).response
  {
  }

  /** Sign-out keeps no state: every request gets 200 "Logout successful". */
  function SignOut(headers: map<string, string>): (resp: Http.Response<AuthBody>)
    ensures resp.status == 200 && resp.body == Message("Logout successful")
  {
    Http.Response(200, Message("Logout successful"))
  }
}
