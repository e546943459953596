/** The request handlers of the authentication service: register, login, the
    token gate and the profile lookup behind it. Each returns the HTTP status
    and JSON body the handler sends; `success` is `true` exactly for the
    bodies other than `Failure`. */
module Server {
  import opened Values
  import opened Crypto
  import opened Header
  import opened Users

  /** The user fields login returns: the row without its password hash and timestamp. */
  datatype PublicUser = PublicUser(id: nat, username: string, email: string, fullName: string, phone: Option<string>)

  /** The columns the profile query selects: every column but the password hash. */
  datatype ProfileUser = ProfileUser(id: nat, username: string, email: string, fullName: string,
                                     phone: Option<string>, createdAt: string)

  datatype Body =
    | Failure(message: string)
    | Created(message: string, userId: nat)
    | LoggedIn(message: string, token: string, user: PublicUser)
    | ProfileFound(profile: ProfileUser)
  {
    /** The `success` field of the JSON body. */
    predicate Success() { !Failure? }
  }

  datatype Response = Response(status: int, body: Body)

  datatype RegisterBody = RegisterBody(username: Option<string>, email: Option<string>, password: Option<string>,
                                       fullName: Option<string>, phone: Option<string>)

  datatype LoginBody = LoginBody(username: Option<string>, password: Option<string>)

  /** What the gate does with a request: answer it itself, or call `next()`
      with `req.user` set to the decoded claims. */
  datatype GateResult = Denied(response: Response) | Admitted(claims: Claims)

  const MissingFields := Response(400, Failure("All required fields must be filled"))
  const AlreadyExists := Response(400, Failure("Username or email already exists"))
  const DatabaseError := Response(500, Failure("Database error"))
  const CreateFailed := Response(500, Failure("Failed to create user"))
  const MissingCredentials := Response(400, Failure("Username and password required"))
  const InvalidCredentials := Response(401, Failure("Invalid credentials"))
  const TokenRequired := Response(401, Failure("Access token required"))
  const TokenRejected := Response(403, Failure("Invalid or expired token"))
  const UserNotFound := Response(404, Failure("User not found"))

  // ---------------------------------------------------------------- register

  predicate HasRegisterFields(body: RegisterBody)
  {
    Truthy(body.username) && Truthy(body.email) && Truthy(body.password) && Truthy(body.fullName)
  }

  /** `phone || null`: a falsy phone is stored as NULL. */
  function StoredPhone(phone: Option<string>): (stored: Option<string>)
    ensures stored.Some? <==> Truthy(phone)
    ensures stored.Some? ==> stored == phone
  {
    if Truthy(phone) then phone else None
  }

  /** `POST /api/register`. `lookupFault` and `insertFault` stand for the
      storage errors the two statements can report; `salt` is the salt bcrypt
      draws and `now` the insert's CURRENT_TIMESTAMP. */
  method Register(db: UserTable, body: RegisterBody, hasher: Hasher, salt: Salt, now: string,
                  lookupFault: bool, insertFault: bool)
    returns (resp: Response)
    requires db.Valid()
    modifies db
    ensures db.Valid()
    ensures resp.status != 201 ==> db.rows == old(db.rows) && db.lastId == old(db.lastId)
    ensures resp.body.Success() <==> resp.status == 201
    ensures !HasRegisterFields(body) ==> resp == MissingFields
    ensures HasRegisterFields(body) && lookupFault ==> resp == DatabaseError
    ensures HasRegisterFields(body) && !lookupFault && Taken(old(db.rows), body.username.value, body.email.value)
            ==> resp == AlreadyExists
    ensures HasRegisterFields(body) && !lookupFault && !Taken(old(db.rows), body.username.value, body.email.value)
            && insertFault
            ==> resp == CreateFailed
    ensures resp.status == 201 <==>
            HasRegisterFields(body) && !lookupFault && !insertFault
            && !Taken(old(db.rows), body.username.value, body.email.value)
    ensures resp.status == 201 ==>
            var id := old(db.lastId) + 1;
            && resp == Response(201, Created("User created successfully", id))
            && db.lastId == id
            && (forall r :: r in old(db.rows) ==> r.id < id)
            && db.rows == old(db.rows) + [Row(id, body.username.value, body.email.value,
                                              hasher.hash(body.password.value, salt),
                                              body.fullName.value, StoredPhone(body.phone), now)]
  {
    if !HasRegisterFields(body) {
      return MissingFields;
    }
    var username, email := body.username.value, body.email.value;
    if lookupFault {
      return DatabaseError;
    }
    if Taken(db.rows, username, email) {
      return AlreadyExists;
    }
    var hashed := hasher.hash(body.password.value, salt);
    var id := db.Insert(username, email, hashed, body.fullName.value, StoredPhone(body.phone), now, insertFault);
    match id
    case None =>
      resp := CreateFailed;
    case Some(newId) =>
      resp := Response(201, Created("User created successfully", newId));
  }

  // ------------------------------------------------------------------- login

  /** The claim set login signs for a row. */
  function ClaimsOf(r: Row): Claims
  {
    Claims(r.id, r.username, r.email)
  }

  /** The shape of `user` in the login response. */
  function PublicUserOf(r: Row): PublicUser
  {
    PublicUser(r.id, r.username, r.email, r.fullName, r.phone)
  }

  /** What `db.get` may hand the login callback: no row when none matches,
      otherwise any matching row (which one the query yields is not specified). */
  predicate LookupAllows(rows: seq<Row>, identifier: string, found: Option<Row>)
  {
    match found
    case None => forall r :: r in rows ==> !MatchesIdentifier(r, identifier)
    case Some(r) => r in rows && MatchesIdentifier(r, identifier)
  }

  /** The login callback's reply once `db.get` has reported `lookupFault` or `found`. */
  function LoginReply(body: LoginBody, lookupFault: bool, found: Option<Row>,
                      hasher: Hasher, tokens: Tokens, secret: string, now: int): (resp: Response)
    ensures !Truthy(body.username) || !Truthy(body.password) ==> resp == MissingCredentials
    ensures Truthy(body.username) && Truthy(body.password) && lookupFault ==> resp == DatabaseError
    ensures resp.status == 200 <==>
            && Truthy(body.username) && Truthy(body.password) && !lookupFault
            && found.Some? && hasher.compare(body.password.value, found.value.password)
    ensures resp.status == 200 ==>
            resp == Response(200, LoggedIn("Login successful",
                                           tokens.sign(ClaimsOf(found.value), secret, TokenLifetime, now),
                                           PublicUserOf(found.value)))
    ensures resp.status == 401 <==>
            && Truthy(body.username) && Truthy(body.password) && !lookupFault
            && (found.None? || !hasher.compare(body.password.value, found.value.password))
    ensures resp.status == 401 ==> resp == InvalidCredentials
    ensures resp.body.Success() <==> resp.status == 200
  {
    if !Truthy(body.username) || !Truthy(body.password) then MissingCredentials
    else if lookupFault then DatabaseError
    else match found
      case None => InvalidCredentials
      case Some(r) =>
        if !hasher.compare(body.password.value, r.password) then InvalidCredentials
        else Response(200, LoggedIn("Login successful",
                                    tokens.sign(ClaimsOf(r), secret, TokenLifetime, now), PublicUserOf(r)))
  }

  /** Enumeration resistance: an unknown identifier and a wrong password for a
      known one get the very same response. */
  lemma UnknownUserLooksLikeWrongPassword(body: LoginBody, r: Row, hasher: Hasher, tokens: Tokens,
                                          secret: string, now: int)
    requires Truthy(body.username) && Truthy(body.password)
    requires !hasher.compare(body.password.value, r.password)
    ensures LoginReply(body, false, None, hasher, tokens, secret, now)
         == LoginReply(body, false, Some(r), hasher, tokens, secret, now)
         == InvalidCredentials
  {
  }

  /** `POST /api/login`. It only reads the table. */
  method Login(db: UserTable, body: LoginBody, hasher: Hasher, tokens: Tokens, secret: string, now: int,
               lookupFault: bool)
    returns (resp: Response)
    ensures !Truthy(body.username) || !Truthy(body.password) ==> resp == MissingCredentials
    ensures Truthy(body.username) && Truthy(body.password) ==>
            exists found :: LookupAllows(db.rows, body.username.value, found)
                            && resp == LoginReply(body, lookupFault, found, hasher, tokens, secret, now)
  {
    if !Truthy(body.username) || !Truthy(body.password) {
      return MissingCredentials;
    }
    var identifier := body.username.value;
    var found: Option<Row>;
    if exists r :: r in db.rows && MatchesIdentifier(r, identifier) {
      var r :| r in db.rows && MatchesIdentifier(r, identifier);
      found := Some(r);
    } else {
      found := None;
    }
    assert LookupAllows(db.rows, identifier, found);
    resp := LoginReply(body, lookupFault, found, hasher, tokens, secret, now);
  }

  // ---------------------------------------------------------- gate, profile

  /** `authenticateToken`: no token gives 401, a token `verify` rejects gives
      403, and otherwise the decoded claims go downstream untouched. */
  function Gate(header: Option<string>, tokens: Tokens, secret: string, now: int): (g: GateResult)
    ensures ExtractToken(header).None? <==> g == Denied(TokenRequired)
    ensures g.Denied? ==> g.response in {TokenRequired, TokenRejected}
    ensures g.Admitted? <==> ExtractToken(header).Some? && tokens.verify(ExtractToken(header).value, secret, now).Ok?
    ensures g.Admitted? ==> tokens.verify(ExtractToken(header).value, secret, now) == Ok(g.claims)
  {
    match ExtractToken(header)
    case None => Denied(TokenRequired)
    case Some(token) =>
      match tokens.verify(token, secret, now)
      case Err(_) => Denied(TokenRejected)
      case Ok(claims) => Admitted(claims)
  }

  /** The profile columns of a row. */
  function ProfileOf(r: Row): ProfileUser
  {
    ProfileUser(r.id, r.username, r.email, r.fullName, r.phone, r.createdAt)
  }

  /** The profile handler, given the claims the gate admitted. */
  function ProfileReply(rows: seq<Row>, claims: Claims, lookupFault: bool): (resp: Response)
    ensures lookupFault ==> resp == DatabaseError
    ensures !lookupFault ==>
            (resp == UserNotFound <==> forall r :: r in rows ==> r.id != claims.userId)
    ensures !lookupFault ==> (resp.status == 200 <==> exists r :: r in rows && r.id == claims.userId)
    ensures resp.status == 200 ==>
            exists r :: r in rows && r.id == claims.userId && resp == Response(200, ProfileFound(ProfileOf(r)))
    ensures resp.body.Success() <==> resp.status == 200
  {
    if lookupFault then DatabaseError
    else match FindById(rows, claims.userId)
      case None => UserNotFound
      case Some(r) => Response(200, ProfileFound(ProfileOf(r)))
  }

  /** The handler trusts the claims as they stand: whatever username and email
      they carry, claims naming a row's id get that row's current profile. */
  lemma ProfileFollowsClaimedId(rows: seq<Row>, lastId: nat, k: nat, claims: Claims)
    requires TableInvariant(rows, lastId) && k < |rows|
    requires claims.userId == rows[k].id
    ensures ProfileReply(rows, claims, false) == Response(200, ProfileFound(ProfileOf(rows[k])))
  {
  }

  /** `GET /api/profile`: the gate, then the profile handler on the admitted claims. */
  function GetProfile(db: UserTable, header: Option<string>, tokens: Tokens, secret: string, now: int,
                      lookupFault: bool): (resp: Response)
    reads db
    ensures ExtractToken(header).None? ==> resp == TokenRequired
    ensures ExtractToken(header).Some? && tokens.verify(ExtractToken(header).value, secret, now).Err? ==>
            resp == TokenRejected
    ensures ExtractToken(header).Some? && tokens.verify(ExtractToken(header).value, secret, now).Ok? ==>
            resp == ProfileReply(db.rows, tokens.verify(ExtractToken(header).value, secret, now).value, lookupFault)
    ensures resp.body.Success() <==> resp.status == 200
  {
    match Gate(header, tokens, secret, now)
    case Denied(r) => r
    case Admitted(claims) => ProfileReply(db.rows, claims, lookupFault)
  }

  /** A token issued at login for a row of the table, presented after any
      space-free first word, and accepted by `verify`, yields that row's profile. */
  lemma LoginTokenOpensProfile(db: UserTable, k: nat, scheme: string, tokens: Tokens, secret: string,
                               issuedAt: int, now: int)
    requires db.Valid() && k < |db.rows|
    requires ' ' !in scheme
    requires var token := tokens.sign(ClaimsOf(db.rows[k]), secret, TokenLifetime, issuedAt);
             && token != "" && ' ' !in token
             && tokens.verify(token, secret, now) == Ok(ClaimsOf(db.rows[k]))
    ensures var token := tokens.sign(ClaimsOf(db.rows[k]), secret, TokenLifetime, issuedAt);
            GetProfile(db, Some(scheme + " " + token), tokens, secret, now, false)
              == Response(200, ProfileFound(ProfileOf(db.rows[k])))
  {
    var token := tokens.sign(ClaimsOf(db.rows[k]), secret, TokenLifetime, issuedAt);
    SecondWordIsToken(scheme, token, "");
    assert scheme + " " + token + "" == scheme + " " + token;
    FindByIdIsUnique(db.rows, db.lastId, k);
  }
}
