/**
 * The request handlers of controller.js — signup, login, getUser, getUsers,
 * deleteUser and refreshToken — as transitions from a database to a reply
 * and a new database. Hashing, password comparison and token signing and
 * verification are parameters: they are computed outside the service.
 */
module Session {
  import opened Wrappers
  import opened Bearer
  import opened Store

  /** An HTTP status code. */
  type Status = n: int | 100 <= n < 600 witness 200

  const OK: Status := 200
  const CREATED: Status := 201
  const UNAUTHORIZED: Status := 401
  const NOT_FOUND: Status := 404
  const UNPROCESSABLE: Status := 422

  /** Which of the two token kinds `generateToken` / `verifyToken` handle. */
  datatype Kind = Access | Refresh

  /**
   * What `verifyToken` returns: the verified claim, or an error object whose
   * `status` is the reply's status. That the status is a valid HTTP status
   * (100..599) is an assumption about the token handler, whose source is not
   * part of this model.
   */
  datatype Verdict = Verified(id: nat) | Denied(status: Status, message: string)

  /** Process-wide primitives: md5 hex digest, bcrypt hash and compare, the e-mail syntax check. */
  datatype Services = Services(
    md5: string -> string,
    bcryptHash: string -> string,
    bcryptMatches: (string, string) -> bool,
    isEmail: string -> bool)

  /**
   * The token handler as it behaves while one request is served: `sign`
   * issues a token carrying the user id, `verify` checks a presented token
   * (which may be absent). Key, clock and expiry are folded in.
   */
  datatype TokenHandler = TokenHandler(
    sign: (nat, Kind) -> string,
    verify: (Option<string>, Kind) -> Verdict)

  /** A request field the validation rules inspect. */
  datatype Field = AuthorizationHeader | NameField | EmailField | PasswordField

  /** The first failing check of one field; the message text is not modelled. */
  datatype FieldError =
    | Header(error: HeaderError)
    | NameEmpty
    | EmailInvalid
    | EmailRegistered
    | EmailUnknown
    | PasswordShort

  /** The JSON body's payload beside its `status` field. */
  datatype Payload =
    | Created(userId: nat)
    | Issued(accessToken: string, refreshToken: string)
    | OneUser(user: Profile)
    | AllUsers(users: seq<User>)
    | Removed(affectedRows: nat)
    | Note(message: string)
    | Rejected(errors: map<Field, FieldError>)

  /** A reply: the HTTP status line and the JSON body (`status` plus payload). */
  datatype Response = Response(http: Status, status: Status, payload: Payload)

  /** Why a handler passed an error to `next(err)`. */
  datatype Fault = TokenInsertFailed | TokenUpdateFailed | MissingToken | Storage(error: DbError)

  /** Either a reply was sent or an error reached the error middleware. */
  datatype Outcome = Sent(response: Response) | Raised(fault: Fault)

  /** `res.status(s).json({status: s, …})` */
  function Reply(s: Status, p: Payload): Outcome {
    Sent(Response(s, s, p))
  }

  /**
   * `validate`: any field error stops the request with 422 and the map of
   * field errors; with none the request goes on to its handler.
   */
  function Validate(errors: map<Field, FieldError>): (r: Option<Outcome>)
    ensures r.None? <==> |errors| == 0
    ensures r.Some? ==> r.value.Sent? && r.value.response.status == 422 && r.value.response.http == 422
    ensures r.Some? ==> r.value.response.payload == Rejected(errors)
  {
    if |errors| == 0 then None else Some(Reply(UNPROCESSABLE, Rejected(errors)))
  }

  /** The reply every guarded handler sends when the verifier refuses the token. */
  function DenialReply(v: Verdict): Outcome
    requires v.Denied?
  {
    Reply(v.status, Note(v.message))
  }

  /**
   * signup: hash the password and insert the user; the new row's id is
   * returned with status 201. The unique key on `email` turns a duplicate
   * into an error.
   */
  function Signup(svc: Services, db: Db, name: string, email: string, password: string): (r: (Outcome, Db))
    ensures r.1.tokens == db.tokens
    ensures r.0.Raised? <==> EmailTaken(db.users, email)
    ensures r.0.Raised? ==> r.1 == db
    ensures r.0.Sent? ==>
      && r.0.response.status == 201
      && r.0.response.payload == Created(db.nextId)
      && r.1.users == db.users + [User(db.nextId, name, email, svc.bcryptHash(password))]
  {
    match InsertUser(db, name, email, svc.bcryptHash(password))
    case Failure(e) => (Raised(Storage(e)), db)
    case Success((db', id)) => (Reply(CREATED, Created(id)), db')
  }

  /**
   * login: `user` is the row the e-mail check attached to the request. A
   * password that does not match gives 422; otherwise an access and a refresh
   * token are issued and the refresh token's md5 digest is recorded.
   */
  function Login(svc: Services, tk: TokenHandler, db: Db, user: User, password: string): (r: (Outcome, Db))
    ensures r.1.users == db.users && r.1.nextId == db.nextId
  {
    if !svc.bcryptMatches(password, user.password) then
      (Reply(UNPROCESSABLE, Note("error de login")), db)
    else
      var access := tk.sign(user.id, Access);
      var refresh := tk.sign(user.id, Refresh);
      var (tokens', affected) := InsertToken(db.tokens, TokenRow(user.id, svc.md5(refresh)));
      if affected == 0 then (Raised(TokenInsertFailed), db.(tokens := tokens'))
      else (Reply(OK, Issued(access, refresh)), db.(tokens := tokens'))
  }

  /** getUser: the profile of the one row with that id, or 404. */
  function GetUser(tk: TokenHandler, db: Db, accessToken: Option<string>, id: nat): (r: (Outcome, Db))
    ensures r.1 == db
  {
    var verdict := tk.verify(accessToken, Access);
    match verdict
    case Denied(_, _) => (DenialReply(verdict), db)
    case Verified(_) =>
      var rows := ProfilesWithId(db.users, id);
      if |rows| != 1 then (Reply(NOT_FOUND, Note("Usuario no encontrado")), db)
      else (Reply(OK, OneUser(rows[0])), db)
  }

  /** getUsers: every row of `users`; the 404 branch tests `length < 0`. */
  function GetUsers(tk: TokenHandler, db: Db, accessToken: Option<string>): (r: (Outcome, Db))
    ensures r.1 == db
  {
    var verdict := tk.verify(accessToken, Access);
    match verdict
    case Denied(_, _) => (DenialReply(verdict), db)
    case Verified(_) =>
      var rows := db.users;
      if |rows| < 0 then (Reply(NOT_FOUND, Note("No existen usuarios")), db)
      else (Reply(OK, AllUsers(rows)), db)
  }

  /** deleteUser: delete the rows with that id and report the affected count. */
  function DeleteUser(tk: TokenHandler, db: Db, accessToken: Option<string>, id: nat): (r: (Outcome, Db))
    ensures r.1.tokens == db.tokens && r.1.nextId == db.nextId
    ensures forall u :: u in r.1.users ==> u in db.users
    ensures tk.verify(accessToken, Access).Verified? ==> forall u :: u in r.1.users ==> u.id != id
  {
    var verdict := tk.verify(accessToken, Access);
    match verdict
    case Denied(_, _) => (DenialReply(verdict), db)
    case Verified(_) =>
      var (users', affected) := DeleteWithId(db.users, id);
      (Reply(OK, Removed(affected)), db.(users := users'))
  }

  /**
   * refreshToken: the presented refresh token must verify and its digest must
   * be held by exactly one row; new tokens are issued for the verified id and
   * every row holding the old digest is rewritten to the new token's digest.
   * The 401 reply is sent with `res.json` alone, so its HTTP status is 200.
   */
  function RefreshToken(svc: Services, tk: TokenHandler, db: Db, refreshToken: Option<string>): (r: (Outcome, Db))
    ensures r.1.users == db.users && r.1.nextId == db.nextId && |r.1.tokens| == |db.tokens|
  {
    var verdict := tk.verify(refreshToken, Refresh);
    match verdict
    case Denied(_, _) => (DenialReply(verdict), db)
    case Verified(id) =>
      match refreshToken
      case None => (Raised(MissingToken), db)
      case Some(token) =>
        var digest := svc.md5(token);
        if |TokensWithHash(db.tokens, digest)| != 1 then
          (Sent(Response(OK, UNAUTHORIZED, Note("Unauthorized: token invalido"))), db)
        else
          var access := tk.sign(id, Access);
          var refresh := tk.sign(id, Refresh);
          var (tokens', affected) := Rotate(db.tokens, digest, svc.md5(refresh));
          if affected == 0 then (Raised(TokenUpdateFailed), db.(tokens := tokens'))
          else (Reply(OK, Issued(access, refresh)), db.(tokens := tokens'))
  }

  /** A password that does not match gives 422: no token is issued and no row is written. */
  lemma LoginWrongPassword(svc: Services, tk: TokenHandler, db: Db, user: User, password: string)
    requires !svc.bcryptMatches(password, user.password)
    ensures var (o, db') := Login(svc, tk, db, user, password);
      && db' == db
      && o.Sent? && o.response.http == 422 && o.response.status == 422
      && !o.response.payload.Issued?
  {
  }

  /**
   * A matching password gives 200 with both tokens for `user.id`, appends
   * exactly one row holding the refresh token's digest, and changes nothing
   * else: the user's record count grows by one, every other user's stays.
   */
  lemma LoginRecordsOneRow(svc: Services, tk: TokenHandler, db: Db, user: User, password: string)
    requires svc.bcryptMatches(password, user.password)
    ensures var (o, db') := Login(svc, tk, db, user, password);
      var refresh := tk.sign(user.id, Refresh);
      && o == Reply(OK, Issued(tk.sign(user.id, Access), refresh))
      && db' == db.(tokens := db.tokens + [TokenRow(user.id, svc.md5(refresh))])
      && CountOwned(db'.tokens, user.id) == CountOwned(db.tokens, user.id) + 1
      && forall other: nat :: other != user.id ==> CountOwned(db'.tokens, other) == CountOwned(db.tokens, other)
  {
    var row := TokenRow(user.id, svc.md5(tk.sign(user.id, Refresh)));
    CountOwnedAppend(db.tokens, row, user.id);
    forall other: nat | other != user.id
      ensures CountOwned(db.tokens + [row], other) == CountOwned(db.tokens, other)
    {
      CountOwnedAppend(db.tokens, row, other);
    }
  }

  /**
   * Every guarded handler answers a refused token with the verifier's own
   * status and message, and touches no table.
   */
  lemma GuardShortCircuits(svc: Services, tk: TokenHandler, db: Db, token: Option<string>, id: nat)
    ensures var v := tk.verify(token, Access);
      v.Denied? ==>
        && GetUser(tk, db, token, id) == (Reply(v.status, Note(v.message)), db)
        && GetUsers(tk, db, token) == (Reply(v.status, Note(v.message)), db)
        && DeleteUser(tk, db, token, id) == (Reply(v.status, Note(v.message)), db)
    ensures var v := tk.verify(token, Refresh);
      v.Denied? ==> RefreshToken(svc, tk, db, token) == (Reply(v.status, Note(v.message)), db)
  {
  }

  /** getUser answers 404 exactly when the id does not select a single row. */
  lemma GetUserFound(tk: TokenHandler, db: Db, token: Option<string>, id: nat)
    requires tk.verify(token, Access).Verified?
    ensures var o := GetUser(tk, db, token, id).0;
      && o.Sent?
      && (o.response.status == 404 <==> |ProfilesWithId(db.users, id)| != 1)
      && (o.response.status == 200 <==> |ProfilesWithId(db.users, id)| == 1)
      && (o.response.status == 200 ==>
            exists u :: u in db.users && u.id == id && o.response.payload == OneUser(Project(u)))
  {
    var rows := ProfilesWithId(db.users, id);
    if |rows| == 1 {
      assert rows[0] in rows;
    }
  }

  /** Past the guard getUsers always answers 200 with the whole table: its 404 branch is dead. */
  lemma GetUsersNeverNotFound(tk: TokenHandler, db: Db, token: Option<string>)
    requires tk.verify(token, Access).Verified?
    ensures GetUsers(tk, db, token).0 == Reply(OK, AllUsers(db.users))
  {
  }

  /**
   * Past the guard deleteUser always answers 200, whether or not the id
   * exists; the reported count is the number of rows that had that id.
   */
  lemma DeleteUserUnconditional(tk: TokenHandler, db: Db, token: Option<string>, id: nat)
    requires tk.verify(token, Access).Verified?
    ensures var (o, db') := DeleteUser(tk, db, token, id);
      && o == Reply(OK, Removed(|ProfilesWithId(db.users, id)|))
      && |db'.users| + |ProfilesWithId(db.users, id)| == |db.users|
      && forall u :: u in db.users && u.id != id ==> u in db'.users
  {
  }

  /**
   * A verified refresh token whose digest is not held by exactly one row is
   * refused with body status 401 (HTTP 200), and the table is left alone.
   */
  lemma RefreshRejectsUnlessSingle(svc: Services, tk: TokenHandler, db: Db, token: string)
    requires tk.verify(Some(token), Refresh).Verified?
    requires |TokensWithHash(db.tokens, svc.md5(token))| != 1
    ensures var (o, db') := RefreshToken(svc, tk, db, Some(token));
      && db' == db
      && o.Sent? && o.response.status == 401 && o.response.http == 200
  {
  }

  /**
   * A successful refresh: new tokens for the verified id, with status 200;
   * every row holding the old digest now holds the new token's digest, every
   * other row is untouched, and no row changes owner. Run alone, the
   * "no row updated" error cannot happen, since the lookup just found one.
   */
  lemma RefreshRotates(svc: Services, tk: TokenHandler, db: Db, token: string)
    requires tk.verify(Some(token), Refresh).Verified?
    requires |TokensWithHash(db.tokens, svc.md5(token))| == 1
    ensures var (o, db') := RefreshToken(svc, tk, db, Some(token));
      var id := tk.verify(Some(token), Refresh).id;
      var refresh := tk.sign(id, Refresh);
      && o == Reply(OK, Issued(tk.sign(id, Access), refresh))
      && db'.users == db.users && db'.nextId == db.nextId
      && |db'.tokens| == |db.tokens|
      && (forall i :: 0 <= i < |db.tokens| && db.tokens[i].hash == svc.md5(token) ==>
            db'.tokens[i] == TokenRow(db.tokens[i].userId, svc.md5(refresh)))
      && (forall i :: 0 <= i < |db.tokens| && db.tokens[i].hash != svc.md5(token) ==>
            db'.tokens[i] == db.tokens[i])
      && forall owner: nat :: CountOwned(db'.tokens, owner) == CountOwned(db.tokens, owner)
  {
    var id := tk.verify(Some(token), Refresh).id;
    var digest := svc.md5(token);
    var next := svc.md5(tk.sign(id, Refresh));
    forall owner: nat
      ensures CountOwned(Rotate(db.tokens, digest, next).0, owner) == CountOwned(db.tokens, owner)
    {
      RotateKeepsOwners(db.tokens, digest, next, owner);
    }
  }

  /**
   * Replay: once a refresh with a token has succeeded, presenting the same
   * token again is refused and changes nothing, provided the new token's
   * digest differs from the old one's (md5 is not injective).
   */
  lemma RefreshReplayRejected(svc: Services, tk: TokenHandler, tk': TokenHandler, db: Db, token: string)
    requires tk.verify(Some(token), Refresh).Verified?
    requires |TokensWithHash(db.tokens, svc.md5(token))| == 1
    requires svc.md5(tk.sign(tk.verify(Some(token), Refresh).id, Refresh)) != svc.md5(token)
    ensures var db1 := RefreshToken(svc, tk, db, Some(token)).1;
      var (o, db2) := RefreshToken(svc, tk', db1, Some(token));
      && db2 == db1
      && o.Sent? && !o.response.payload.Issued?
      && (tk'.verify(Some(token), Refresh).Verified? ==> o.response.status == 401)
  {
    var id := tk.verify(Some(token), Refresh).id;
    var digest := svc.md5(token);
    var next := svc.md5(tk.sign(id, Refresh));
    RotateEvicts(db.tokens, digest, next);
  }
}
