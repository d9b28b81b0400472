/**
 * The routes of routes.js: the body checks of `/create` and `/login`, the
 * bearer-header rule in front of `/users`, `/profile/:id`, `/delete/:id` and
 * `/refresh`, and each route as its checks, `validate`, then its handler.
 */
module Routes {
  import opened Wrappers
  import opened Text
  import opened Bearer
  import opened Store
  import opened Session

  /** `isLength({ min: 4 })` on the trimmed password. */
  const MIN_PASSWORD := 4

  /** A posted body, before sanitising. */
  datatype Form = Form(name: string, email: string, password: string)

  /** Whether the trimmed password passes `isLength({ min: 4 })`. */
  predicate LongEnough(password: string) {
    ValidatorLength(Trim(password)) >= MIN_PASSWORD
  }

  /** The password check shared by `/create` and `/login`. */
  function PasswordError(password: string): (e: Option<FieldError>)
    ensures e.Some? <==> ValidatorLength(Trim(password)) < MIN_PASSWORD
  {
    if LongEnough(password) then None else Some(PasswordShort)
  }

  /** The `/create` e-mail check: valid syntax and no row holding it yet. */
  function SignupEmailError(svc: Services, db: Db, email: string): (e: Option<FieldError>)
    ensures e.Some? <==> !svc.isEmail(email) || |UsersWithEmail(db.users, email)| > 0
  {
    if !svc.isEmail(email) then Some(EmailInvalid)
    else if |UsersWithEmail(db.users, email)| > 0 then Some(EmailRegistered)
    else None
  }

  /** The `/login` e-mail check: valid syntax and some row holding it. */
  function LoginEmailError(svc: Services, db: Db, email: string): (e: Option<FieldError>)
    ensures e.Some? <==> !svc.isEmail(email) || |UsersWithEmail(db.users, email)| == 0
  {
    if !svc.isEmail(email) then Some(EmailInvalid)
    else if |UsersWithEmail(db.users, email)| == 0 then Some(EmailUnknown)
    else None
  }

  /**
   * The `/create` checks on the trimmed fields: a non-empty name, a valid
   * e-mail that no row holds yet, a password of at least four characters.
   */
  function SignupErrors(svc: Services, db: Db, form: Form): (errors: map<Field, FieldError>)
    ensures NameField in errors <==> Trim(form.name) == ""
    ensures EmailField in errors <==>
      !svc.isEmail(Trim(form.email)) || |UsersWithEmail(db.users, Trim(form.email))| > 0
    ensures PasswordField in errors <==> ValidatorLength(Trim(form.password)) < MIN_PASSWORD
    ensures AuthorizationHeader !in errors
  {
    var nameError := if Trim(form.name) == "" then Some(NameEmpty) else None;
    var emailError := SignupEmailError(svc, db, Trim(form.email));
    var passwordError := PasswordError(form.password);
    var withName: map<Field, FieldError> := if nameError.Some? then map[NameField := nameError.value] else map[];
    var withEmail := if emailError.Some? then withName[EmailField := emailError.value] else withName;
    if passwordError.Some? then withEmail[PasswordField := passwordError.value] else withEmail
  }

  /**
   * The `/login` checks: a valid e-mail some row holds (the first such row
   * becomes `req.body.user`), and a password of at least four characters.
   */
  function LoginErrors(svc: Services, db: Db, form: Form): (errors: map<Field, FieldError>)
    ensures EmailField in errors <==>
      !svc.isEmail(Trim(form.email)) || |UsersWithEmail(db.users, Trim(form.email))| == 0
    ensures PasswordField in errors <==> ValidatorLength(Trim(form.password)) < MIN_PASSWORD
    ensures NameField !in errors && AuthorizationHeader !in errors
  {
    var emailError := LoginEmailError(svc, db, Trim(form.email));
    var passwordError := PasswordError(form.password);
    var withEmail: map<Field, FieldError> := if emailError.Some? then map[EmailField := emailError.value] else map[];
    if passwordError.Some? then withEmail[PasswordField := passwordError.value] else withEmail
  }

  /** POST /create */
  function SignupRoute(svc: Services, db: Db, form: Form): (r: (Outcome, Db))
    ensures r.1.tokens == db.tokens
  {
    match Validate(SignupErrors(svc, db, form))
    case Some(o) => (o, db)
    case None => Signup(svc, db, Trim(form.name), Trim(form.email), Trim(form.password))
  }

  /** POST /login */
  function LoginRoute(svc: Services, tk: TokenHandler, db: Db, form: Form): (r: (Outcome, Db))
    ensures r.1.users == db.users && r.1.nextId == db.nextId
  {
    match Validate(LoginErrors(svc, db, form))
    case Some(o) => (o, db)
    case None => Login(svc, tk, db, UsersWithEmail(db.users, Trim(form.email))[0], Trim(form.password))
  }

  /** `tokenValidation(isRefresh)` followed by `validate`. */
  function Guard(isRefresh: bool, h: Headers): (r: Result<Headers, Outcome>)
    ensures r.Failure? ==> r.error.Sent? && r.error.response.status == 422
  {
    match TokenValidation(isRefresh, h)
    case Failure(e) => Failure(Validate(map[AuthorizationHeader := Header(e)]).value)
    case Success(h') => Success(h')
  }

  /** GET /users */
  function UsersRoute(tk: TokenHandler, db: Db, h: Headers): (r: (Outcome, Db))
    ensures r.1 == db
  {
    match Guard(false, h)
    case Failure(o) => (o, db)
    case Success(h') => GetUsers(tk, db, h'.accessToken)
  }

  /** GET /profile/:id */
  function ProfileRoute(tk: TokenHandler, db: Db, h: Headers, id: nat): (r: (Outcome, Db))
    ensures r.1 == db
  {
    match Guard(false, h)
    case Failure(o) => (o, db)
    case Success(h') => GetUser(tk, db, h'.accessToken, id)
  }

  /** DELETE /delete/:id */
  function DeleteRoute(tk: TokenHandler, db: Db, h: Headers, id: nat): (r: (Outcome, Db))
    ensures r.1.tokens == db.tokens
  {
    match Guard(false, h)
    case Failure(o) => (o, db)
    case Success(h') => DeleteUser(tk, db, h'.accessToken, id)
  }

  /** GET /refresh */
  function RefreshRoute(svc: Services, tk: TokenHandler, db: Db, h: Headers): (r: (Outcome, Db))
    ensures r.1.users == db.users && r.1.nextId == db.nextId
  {
    match Guard(true, h)
    case Failure(o) => (o, db)
    case Success(h') => RefreshToken(svc, tk, db, h'.refreshToken)
  }

  /** `/create` refuses an e-mail some row already holds, before any insert. */
  lemma SignupRejectsRegistered(svc: Services, db: Db, form: Form)
    requires |UsersWithEmail(db.users, Trim(form.email))| > 0
    ensures var (o, db') := SignupRoute(svc, db, form);
      && db' == db
      && o.Sent? && o.response.status == 422
      && o.response.payload.Rejected? && EmailField in o.response.payload.errors
  {
  }

  /** `/login` refuses an e-mail no row holds, before the handler runs. */
  lemma LoginRejectsUnknown(svc: Services, tk: TokenHandler, db: Db, form: Form)
    requires |UsersWithEmail(db.users, Trim(form.email))| == 0
    ensures var (o, db') := LoginRoute(svc, tk, db, form);
      && db' == db
      && o.Sent? && o.response.status == 422
      && o.response.payload.Rejected? && EmailField in o.response.payload.errors
  {
  }

  /** Both `/create` and `/login` refuse a trimmed password shorter than four characters. */
  lemma ShortPasswordRejected(svc: Services, tk: TokenHandler, db: Db, form: Form)
    requires ValidatorLength(Trim(form.password)) < MIN_PASSWORD
    ensures var (o, db') := SignupRoute(svc, db, form);
      && db' == db && o.Sent? && o.response.status == 422
      && o.response.payload.Rejected? && PasswordField in o.response.payload.errors
    ensures var (o, db') := LoginRoute(svc, tk, db, form);
      && db' == db && o.Sent? && o.response.status == 422
      && o.response.payload.Rejected? && PasswordField in o.response.payload.errors
  {
  }

  /**
   * When `/login`'s checks pass, the handler gets the first row of the table
   * holding the trimmed e-mail, and the trimmed password.
   */
  lemma LoginAttachesFirstRow(svc: Services, tk: TokenHandler, db: Db, form: Form) returns (i: nat)
    requires |LoginErrors(svc, db, form)| == 0
    ensures i < |db.users| && db.users[i].email == Trim(form.email)
    ensures forall j :: 0 <= j < i ==> db.users[j].email != Trim(form.email)
    ensures LoginRoute(svc, tk, db, form) == Login(svc, tk, db, db.users[i], Trim(form.password))
  {
    i := FirstWithEmail(db.users, Trim(form.email));
  }

  /**
   * A missing, empty or non-`Bearer` `Authorization` header stops every
   * guarded route with 422 before its handler runs.
   */
  lemma GuardedRoutesRejectBadHeader(svc: Services, tk: TokenHandler, db: Db, h: Headers, id: nat)
    requires h.authorization.None? || Extract(h.authorization.value).None?
    ensures var o := Guard(false, h).error;
      && Guard(false, h).Failure?
      && UsersRoute(tk, db, h) == (o, db)
      && ProfileRoute(tk, db, h, id) == (o, db)
      && DeleteRoute(tk, db, h, id) == (o, db)
    ensures Guard(true, h).Failure? && RefreshRoute(svc, tk, db, h) == (Guard(true, h).error, db)
    ensures Guard(false, h).error.response.status == 422 && Guard(true, h).error.response.status == 422
  {
    AcceptedIff(false, h);
    AcceptedIff(true, h);
  }

  /**
   * An accepted header hands its handler exactly the token after `Bearer`:
   * as the access token on the user routes and as the refresh token on
   * `/refresh`, both read from `Authorization`.
   */
  lemma GuardedRoutesPassToken(svc: Services, tk: TokenHandler, db: Db, h: Headers, id: nat, token: string)
    requires h.authorization.Some? && Extract(h.authorization.value) == Some(token)
    ensures UsersRoute(tk, db, h) == GetUsers(tk, db, Some(token))
    ensures ProfileRoute(tk, db, h, id) == GetUser(tk, db, Some(token), id)
    ensures DeleteRoute(tk, db, h, id) == DeleteUser(tk, db, Some(token), id)
    ensures RefreshRoute(svc, tk, db, h) == RefreshToken(svc, tk, db, Some(token))
  {
    AcceptedStoresToken(false, h);
    AcceptedStoresToken(true, h);
  }

  /** `/create` keeps the users table well formed. */
  lemma SignupKeepsWellFormed(svc: Services, db: Db, form: Form)
    requires WellFormed(db)
    ensures WellFormed(SignupRoute(svc, db, form).1)
  {
    if Validate(SignupErrors(svc, db, form)).None? {
      var digest := svc.bcryptHash(Trim(form.password));
      if InsertUser(db, Trim(form.name), Trim(form.email), digest).Success? {
        InsertUserKeepsWellFormed(db, Trim(form.name), Trim(form.email), digest);
      }
    }
  }

  /** `/delete/:id` keeps the users table well formed. */
  lemma DeleteKeepsTableWellFormed(tk: TokenHandler, db: Db, h: Headers, id: nat)
    requires WellFormed(db)
    ensures WellFormed(DeleteRoute(tk, db, h, id).1)
  {
    if Guard(false, h).Success? && tk.verify(Guard(false, h).value.accessToken, Access).Verified? {
      DeleteKeepsWellFormed(db, id);
    }
  }

  /** Every route keeps the users table well formed. */
  lemma RoutesKeepWellFormed(svc: Services, tk: TokenHandler, db: Db, form: Form, h: Headers, id: nat)
    requires WellFormed(db)
    ensures WellFormed(SignupRoute(svc, db, form).1)
    ensures WellFormed(LoginRoute(svc, tk, db, form).1)
    ensures WellFormed(UsersRoute(tk, db, h).1)
    ensures WellFormed(ProfileRoute(tk, db, h, id).1)
    ensures WellFormed(DeleteRoute(tk, db, h, id).1)
    ensures WellFormed(RefreshRoute(svc, tk, db, h).1)
  {
    SignupKeepsWellFormed(svc, db, form);
    DeleteKeepsTableWellFormed(tk, db, h, id);
  }

  /**
   * After a successful `/create`, `/profile/:id` with the returned id and an
   * access token the verifier accepts answers 200 with the new profile.
   */
  lemma SignupThenProfile(svc: Services, tk: TokenHandler, db: Db, form: Form, h: Headers)
    requires WellFormed(db)
    requires SignupRoute(svc, db, form).0.Sent?
    requires SignupRoute(svc, db, form).0.response.payload.Created?
    requires h.authorization.Some? && Extract(h.authorization.value).Some?
    requires tk.verify(Extract(h.authorization.value), Access).Verified?
    ensures var (o, db') := SignupRoute(svc, db, form);
      ProfileRoute(tk, db', h, o.response.payload.userId).0
        == Reply(OK, OneUser(Profile(db.nextId, Trim(form.name), Trim(form.email))))
  {
    var (o, db') := SignupRoute(svc, db, form);
    var u := User(db.nextId, Trim(form.name), Trim(form.email), svc.bcryptHash(Trim(form.password)));
    assert o.response.payload.userId == db.nextId;
    assert db'.users == db.users + [u];
    ProfilesAppend(db.users, u, db.nextId);
    ProfilesNone(db.users, db.nextId);
    GuardedRoutesPassToken(svc, tk, db', h, db.nextId, Extract(h.authorization.value).value);
  }

  /**
   * A successful `/login` records its refresh token: if no earlier row held
   * that token's digest, exactly one row holds it afterwards.
   */
  lemma LoginRecordsRefreshToken(svc: Services, tk: TokenHandler, db: Db, form: Form)
    requires var o := LoginRoute(svc, tk, db, form).0;
      o.Sent? && o.response.payload.Issued?
    requires TokensWithHash(db.tokens, svc.md5(LoginRoute(svc, tk, db, form).0.response.payload.refreshToken)) == []
    ensures var (o, db') := LoginRoute(svc, tk, db, form);
      |TokensWithHash(db'.tokens, svc.md5(o.response.payload.refreshToken))| == 1
  {
    var (o, db') := LoginRoute(svc, tk, db, form);
    var token := o.response.payload.refreshToken;
    assert Validate(LoginErrors(svc, db, form)).None?;
    var user := UsersWithEmail(db.users, Trim(form.email))[0];
    assert svc.bcryptMatches(Trim(form.password), user.password);
    LoginRecordsOneRow(svc, tk, db, user, Trim(form.password));
    var row := TokenRow(user.id, svc.md5(token));
    TokensAppend(db.tokens, row, svc.md5(token));
  }

  /**
   * `/refresh` with `Authorization: Bearer <token>`, where exactly one row
   * holds the token's digest, answers 200 with new tokens; the same request
   * repeated afterwards is refused and changes nothing, provided the new
   * refresh token's digest differs from the old one's.
   */
  lemma RefreshRouteSingleUse(svc: Services, tk: TokenHandler, tk': TokenHandler, db: Db, token: string)
    requires token != "" && NoSpace(token)
    requires |TokensWithHash(db.tokens, svc.md5(token))| == 1
    requires tk.verify(Some(token), Refresh).Verified?
    requires svc.md5(tk.sign(tk.verify(Some(token), Refresh).id, Refresh)) != svc.md5(token)
    ensures var h := Headers(Some("Bearer " + token), None, None);
      var (o1, db1) := RefreshRoute(svc, tk, db, h);
      var (o2, db2) := RefreshRoute(svc, tk', db1, h);
      && o1.Sent? && o1.response.status == 200 && o1.response.payload.Issued?
      && db2 == db1
      && o2.Sent? && !o2.response.payload.Issued?
      && (tk'.verify(Some(token), Refresh).Verified? ==> o2.response.status == 401)
  {
    var h := Headers(Some("Bearer " + token), None, None);
    ExtractFromShape(Scheme, token, "");
    assert Scheme + " " + token + "" == "Bearer " + token;
    GuardedRoutesPassToken(svc, tk, db, h, 0, token);
    RefreshRotates(svc, tk, db, token);
    RefreshReplayRejected(svc, tk, tk', db, token);
    var db1 := RefreshRoute(svc, tk, db, h).1;
    GuardedRoutesPassToken(svc, tk', db1, h, 0, token);
  }

  /**
   * Single use of a refresh token, end to end: the refresh token a
   * successful `/login` hands out works once on `/refresh` and is refused
   * the second time.
   */
  lemma RefreshTokenSingleUse(svc: Services, tk1: TokenHandler, tk2: TokenHandler, tk3: TokenHandler,
                              db: Db, form: Form)
    requires var o1 := LoginRoute(svc, tk1, db, form).0;
      o1.Sent? && o1.response.payload.Issued?
    requires var token := LoginRoute(svc, tk1, db, form).0.response.payload.refreshToken;
      && token != "" && NoSpace(token)
      && TokensWithHash(db.tokens, svc.md5(token)) == []
      && tk2.verify(Some(token), Refresh).Verified?
      && svc.md5(tk2.sign(tk2.verify(Some(token), Refresh).id, Refresh)) != svc.md5(token)
    ensures var (o1, db1) := LoginRoute(svc, tk1, db, form);
      var token := o1.response.payload.refreshToken;
      var h := Headers(Some("Bearer " + token), None, None);
      var (o2, db2) := RefreshRoute(svc, tk2, db1, h);
      var (o3, db3) := RefreshRoute(svc, tk3, db2, h);
      && o2.Sent? && o2.response.status == 200 && o2.response.payload.Issued?
      && db3 == db2
      && o3.Sent? && !o3.response.payload.Issued?
      && (tk3.verify(Some(token), Refresh).Verified? ==> o3.response.status == 401)
  {
    LoginRecordsRefreshToken(svc, tk1, db, form);
    var (o1, db1) := LoginRoute(svc, tk1, db, form);
    RefreshRouteSingleUse(svc, tk2, tk3, db1, o1.response.payload.refreshToken);
  }
}
