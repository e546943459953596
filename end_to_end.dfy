/** A client of the handlers: the register, login and profile sequence for
    one account, proved from the handlers' contracts alone. The hasher and
    the token library are arbitrary except for the two facts the sequence
    relies on, stated as preconditions. */
module EndToEnd {
  import opened Values
  import opened Crypto
  import opened Header
  import opened Users
  import opened Server

  /** Register "alice" on a fresh database, register her again, log in with
      her username, fetch her profile with `Bearer <token>` and without a header. */
  method AliceSession(hasher: Hasher, tokens: Tokens, secret: string, salt: Salt, stamp: string,
                      loginAt: int, profileAt: int)
    returns (registered: Response, again: Response, loggedIn: Response, profile: Response, anonymous: Response)
    requires hasher.compare("secret123", hasher.hash("secret123", salt))
    requires var token := tokens.sign(Claims(1, "alice", "a@x.com"), secret, TokenLifetime, loginAt);
             && token != "" && ' ' !in token
             && tokens.verify(token, secret, profileAt) == Ok(Claims(1, "alice", "a@x.com"))
    ensures registered == Response(201, Created("User created successfully", 1))
    ensures again == AlreadyExists
    ensures loggedIn == Response(200, LoggedIn("Login successful",
                                               tokens.sign(Claims(1, "alice", "a@x.com"), secret, TokenLifetime, loginAt),
                                               PublicUser(1, "alice", "a@x.com", "Alice A", None)))
    ensures profile == Response(200, ProfileFound(ProfileUser(1, "alice", "a@x.com", "Alice A", None, stamp)))
    ensures anonymous == TokenRequired
  {
    var db := new UserTable();
    var alice := RegisterBody(Some("alice"), Some("a@x.com"), Some("secret123"), Some("Alice A"), None);
    assert HasRegisterFields(alice) && !Taken(db.rows, "alice", "a@x.com");
    registered := Register(db, alice, hasher, salt, stamp, false, false);
    var row := Row(1, "alice", "a@x.com", hasher.hash("secret123", salt), "Alice A", None, stamp);
    assert db.rows == [row];

    var otherEmail := RegisterBody(Some("alice"), Some("other@x.com"), Some("pw"), Some("Another"), Some("555"));
    assert Taken(db.rows, "alice", "other@x.com") by { assert row in db.rows; }
    again := Register(db, otherEmail, hasher, salt, stamp, false, false);
    assert db.rows == [row];

    loggedIn := Login(db, LoginBody(Some("alice"), Some("secret123")), hasher, tokens, secret, loginAt, false);
    assert LookupAllows(db.rows, "alice", Some(row));
    assert forall found :: LookupAllows(db.rows, "alice", found) ==> found == Some(row);
    assert loggedIn == LoginReply(LoginBody(Some("alice"), Some("secret123")), false, Some(row),
                                  hasher, tokens, secret, loginAt);

    var token := tokens.sign(ClaimsOf(row), secret, TokenLifetime, loginAt);
    SecondWordIsToken("Bearer", token, "");
    assert "Bearer" + " " + token + "" == "Bearer " + token;
    profile := GetProfile(db, Some("Bearer " + token), tokens, secret, profileAt, false);
    anonymous := GetProfile(db, None, tokens, secret, profileAt, false);
  }
}
