/** The `/auth` handlers: register, login, avatar, confirmed_email and
    request_email. Each handler returns what it would send back, or the
    exception it would raise, as a Result.

    The handlers test the service's lookups for absence (`if not db_user`,
    `if user is None`, `if user`), but the service raises a 404 instead of
    returning absence, so those branches are never reached. Each handler whose
    outcome that changes is modelled twice: as written, and as
    `...Intended`, reading absence from the repository's lookup instead. */
module Auth {
  import opened Results
  import opened Models
  import opened Repository
  import opened External
  import opened Services

  const EmailAlreadyRegistered := HttpError(409, "Користувач з таким email вже існує", None)
  const UsernameAlreadyRegistered := HttpError(409, "Користувач з таким іменем вже існує", None)
  const WrongCredentials := HttpError(401, "Неправильний email або пароль", Some("Bearer"))
  const EmailNotConfirmed := HttpError(401, "Електронна пошта не підтверджена", None)
  const VerificationFailed := HttpError(400, "Помилка верифікації", None)

  const AlreadyConfirmed := "Ваша електронна пошта вже підтверджена"
  const EmailConfirmed := "Електронну пошту підтверджено"
  const CheckYourEmail := "Перевірте свою електронну пошту для підтвердження"

  /** The login body (`UserLogin`). */
  datatype UserLogin = UserLogin(email: string, password: string)

  /** The resend body (`RequestEmail`). */
  datatype EmailRequest = EmailRequest(email: string)

  /** `{"access_token": ..., "token_type": ...}` */
  datatype TokenResponse = TokenResponse(accessToken: string, tokenType: string)

  /** `{"message": ...}` */
  datatype Message = Message(message: string)

  /** `register_user` as written. The service lookup raises 404 for a
      fresh email and returns a (truthy) user for a taken one, so the
      handler stops at its first check either way: nothing is hashed,
      created or queued. `tasks`, `baseUrl` and `hash` are the handler's
      collaborators, which it never reaches. */
  method RegisterUser(service: UserService, user: UserCreate, tasks: BackgroundTasks,
                      baseUrl: string, hash: string -> string)
    returns (r: Result<UserRec, Failure>)
    requires service.repository.Valid()
    ensures EmailTaken(service.repository.users, user.email) ==> r == Err(EmailAlreadyRegistered)
    ensures !EmailTaken(service.repository.users, user.email) ==> r == Err(UserNotFound)
  {
    var existingUserByEmail := service.GetUserByEmail(user.email);
    if existingUserByEmail.Err? {
      return Err(existingUserByEmail.error);
    }
    return Err(EmailAlreadyRegistered);
  }

  /** `register_user` with absence read from the repository: both
      uniqueness checks (email first), the password replaced by its hash,
      one new unverified user, and a confirmation email queued only once
      the user exists. It creates through `UserService.CreateUserIntended`,
      so it also corrects the service's `create_user`, which as written
      would end every registration in an AttributeError. */
  method RegisterUserIntended(service: UserService, user: UserCreate, tasks: BackgroundTasks,
                              baseUrl: string, hash: string -> string)
    returns (r: Result<UserRec, Failure>)
    requires service.repository.Valid()
    modifies service.repository, tasks
    ensures service.repository.Valid()
    ensures EmailTaken(old(service.repository.users), user.email) ==> r == Err(EmailAlreadyRegistered)
    ensures (!EmailTaken(old(service.repository.users), user.email)
             && UsernameTaken(old(service.repository.users), user.username)) ==>
      r == Err(UsernameAlreadyRegistered)
    ensures (!EmailTaken(old(service.repository.users), user.email)
             && !UsernameTaken(old(service.repository.users), user.username)) ==>
      (r.Ok? <==> CanCreate(old(service.repository.users), user.username, user.email, hash(user.password), None))
    ensures (!EmailTaken(old(service.repository.users), user.email)
             && !UsernameTaken(old(service.repository.users), user.username)
             && !CanCreate(old(service.repository.users), user.username, user.email, hash(user.password), None)) ==>
      r == Err(IntegrityError)
    ensures r.Ok? ==>
      && r.value.username == user.username
      && r.value.email == user.email
      && r.value.hashedPassword == hash(user.password)
      && !r.value.isVerified
      && r.value.avatarUrl == None
      && service.repository.users == old(service.repository.users) + [r.value]
      && tasks.queued == old(tasks.queued) + [EmailJob(r.value.email, r.value.username, baseUrl)]
    ensures r.Err? ==>
      service.repository.users == old(service.repository.users) && tasks.queued == old(tasks.queued)
  {
    if service.repository.GetUserByEmail(user.email).Some? {
      return Err(EmailAlreadyRegistered);
    }
    if service.repository.GetUserByUsername(user.username).Some? {
      return Err(UsernameAlreadyRegistered);
    }
    var hashed := user.(password := hash(user.password));
    var newUser := service.CreateUserIntended(hashed);
    if newUser.Err? {
      return newUser;
    }
    tasks.AddSendEmail(newUser.value.email, newUser.value.username, baseUrl);
    r := newUser;
  }

  /** Lines 59-76 of the login handler, given what the lookup produced:
      the password check, then the verification gate, then the token. */
  function LoginCheck(dbUser: Option<UserRec>, password: string,
                      verify: (string, string) -> bool, issue: string -> string)
    : (r: Result<TokenResponse, Failure>)
    ensures r.Ok? <==> dbUser.Some? && verify(password, dbUser.value.hashedPassword) && dbUser.value.isVerified
    ensures r.Ok? ==> r.value == TokenResponse(issue(dbUser.value.email), "bearer")
    ensures dbUser.None? ==> r == Err(WrongCredentials)
    ensures dbUser.Some? && !verify(password, dbUser.value.hashedPassword) ==> r == Err(WrongCredentials)
    ensures dbUser.Some? && verify(password, dbUser.value.hashedPassword) && !dbUser.value.isVerified ==>
      r == Err(EmailNotConfirmed)
  {
    if dbUser.None? || !verify(password, dbUser.value.hashedPassword) then Err(WrongCredentials)
    else if !dbUser.value.isVerified then Err(EmailNotConfirmed)
    else Ok(TokenResponse(issue(dbUser.value.email), "bearer"))
  }

  /** `login_user` as written: an unknown email ends in the service's 404. */
  function LoginUser(service: UserService, user: UserLogin,
                     verify: (string, string) -> bool, issue: string -> string)
    : (r: Result<TokenResponse, Failure>)
    reads service.repository
    requires service.repository.Valid()
    ensures r.Ok? <==> exists u :: u in service.repository.users && u.email == user.email
                              && verify(user.password, u.hashedPassword) && u.isVerified
    ensures r.Ok? ==> r.value == TokenResponse(issue(user.email), "bearer")
    ensures !EmailTaken(service.repository.users, user.email) ==> r == Err(UserNotFound)
    ensures forall u :: u in service.repository.users && u.email == user.email ==>
      (!verify(user.password, u.hashedPassword) ==> r == Err(WrongCredentials))
      && (verify(user.password, u.hashedPassword) && !u.isVerified ==> r == Err(EmailNotConfirmed))
  {
    match service.GetUserByEmail(user.email)
    case Err(e) => Err(e)
    case Ok(dbUser) => LoginCheck(Some(dbUser), user.password, verify, issue)
  }

  /** `login_user` with absence read from the repository: an unknown email
      gets the same 401 as a wrong password. */
  function LoginUserIntended(service: UserService, user: UserLogin,
                             verify: (string, string) -> bool, issue: string -> string)
    : (r: Result<TokenResponse, Failure>)
    reads service.repository
    requires service.repository.Valid()
    ensures r.Ok? <==> exists u :: u in service.repository.users && u.email == user.email
                              && verify(user.password, u.hashedPassword) && u.isVerified
    ensures r.Ok? ==> r.value == TokenResponse(issue(user.email), "bearer")
    ensures !EmailTaken(service.repository.users, user.email) ==> r == Err(WrongCredentials)
    ensures forall u :: u in service.repository.users && u.email == user.email ==>
      (!verify(user.password, u.hashedPassword) ==> r == Err(WrongCredentials))
      && (verify(user.password, u.hashedPassword) && !u.isVerified ==> r == Err(EmailNotConfirmed))
  {
    LoginCheck(service.repository.GetUserByEmail(user.email), user.password, verify, issue)
  }

  /** Once the user with this email is confirmed, the right password logs
      in and the token is issued for that email. */
  lemma ConfirmationUnlocksLogin(users: seq<UserRec>, email: string, password: string, k: nat,
                                 verify: (string, string) -> bool, issue: string -> string)
    requires UsersValid(users) && k < |users|
    requires users[k].email == email && verify(password, users[k].hashedPassword)
    ensures UsersValid(MarkVerified(users, email))
    ensures LoginCheck(Lookup(MarkVerified(users, email), ByEmail(email)), password, verify, issue)
         == Ok(TokenResponse(issue(email), "bearer"))
  {
    MarkVerifiedValid(users, email);
    MarkVerifiedAt(users, email, k);
  }

  /** `update_avatar` as written. `upload_file` is a coroutine function
      (the service awaits it), so the handler's call without `await`
      uploads nothing: it only builds a pending call, and that object is
      what the service receives as the file. The service then makes the
      one real upload, of the pending call under `user_<id>`, and stores
      whatever URL the host returns for it. */
  method UpdateAvatar(service: UserService, currentUser: UserRec, file: UploadFile,
                      uploader: UploadFileService)
    returns (r: Result<Option<UserRec>, Failure>)
    requires service.repository.Valid()
    modifies service.repository, uploader
    ensures service.repository.Valid()
    ensures uploader.calls == old(uploader.calls)
      + [UploadCall(PendingUpload(file, currentUser.username), AvatarPublicId(currentUser.id))]
    ensures var url := uploader.host(PendingUpload(file, currentUser.username), AvatarPublicId(currentUser.id));
      var found := Lookup(old(service.repository.users), ById(currentUser.id));
      && (found.None? ==> r == Err(UserNotFound) && service.repository.users == old(service.repository.users))
      && (found.Some? && |url| <= AvatarUrlMaxLen ==>
            r == Ok(Some(found.value.(avatarUrl := Some(url))))
            && service.repository.users == SetAvatar(old(service.repository.users), found.value.email, url))
      && (found.Some? && |url| > AvatarUrlMaxLen ==>
            r == Err(IntegrityError) && service.repository.users == old(service.repository.users))
  {
    var avatarUrl := PendingUpload(file, currentUser.username);
    r := service.UpdateAvatar(currentUser.id, avatarUrl, uploader);
  }

  /** `update_avatar` with the file handed to the service: one upload, of
      the file, under `user_<id>`, and that URL stored. */
  method UpdateAvatarIntended(service: UserService, currentUser: UserRec, file: UploadFile,
                              uploader: UploadFileService)
    returns (r: Result<Option<UserRec>, Failure>)
    requires service.repository.Valid()
    modifies service.repository, uploader
    ensures service.repository.Valid()
    ensures uploader.calls == old(uploader.calls) + [UploadCall(FilePayload(file), AvatarPublicId(currentUser.id))]
    ensures var url := uploader.host(FilePayload(file), AvatarPublicId(currentUser.id));
      var found := Lookup(old(service.repository.users), ById(currentUser.id));
      && (found.None? ==> r == Err(UserNotFound) && service.repository.users == old(service.repository.users))
      && (found.Some? && |url| <= AvatarUrlMaxLen ==>
            r == Ok(Some(found.value.(avatarUrl := Some(url))))
            && service.repository.users == SetAvatar(old(service.repository.users), found.value.email, url))
      && (found.Some? && |url| > AvatarUrlMaxLen ==>
            r == Err(IntegrityError) && service.repository.users == old(service.repository.users))
  {
    r := service.UpdateAvatar(currentUser.id, FilePayload(file), uploader);
  }

  /** `confirmed_email` as written: a token the decoder refuses fails; an
      unknown email ends in the service's 404; a verified user gets the
      "already confirmed" message and nothing changes; an unverified one
      is verified. */
  method ConfirmedEmail(service: UserService, token: string, emailFromToken: string -> Option<string>)
    returns (r: Result<Message, Failure>)
    requires service.repository.Valid()
    modifies service.repository
    ensures service.repository.Valid()
    ensures emailFromToken(token).None? ==>
      r == Err(TokenRejected) && service.repository.users == old(service.repository.users)
    ensures emailFromToken(token).Some? && !EmailTaken(old(service.repository.users), emailFromToken(token).value) ==>
      r == Err(UserNotFound) && service.repository.users == old(service.repository.users)
    ensures forall u :: u in old(service.repository.users) && emailFromToken(token) == Some(u.email) ==>
      if u.isVerified then
        r == Ok(Message(AlreadyConfirmed)) && service.repository.users == old(service.repository.users)
      else
        r == Ok(Message(EmailConfirmed))
        && service.repository.users == MarkVerified(old(service.repository.users), u.email)
  {
    var email := emailFromToken(token);
    if email.None? {
      return Err(TokenRejected);
    }
    var user := service.GetUserByEmail(email.value);
    if user.Err? {
      return Err(user.error);
    }
    if user.value.isVerified {
      return Ok(Message(AlreadyConfirmed));
    }
    var verified := service.VerifyEmail(email.value);
    assert verified == Ok(());
    r := Ok(Message(EmailConfirmed));
  }

  /** `confirmed_email` with absence read from the repository: an unknown
      email gets the handler's own 400. */
  method ConfirmedEmailIntended(service: UserService, token: string, emailFromToken: string -> Option<string>)
    returns (r: Result<Message, Failure>)
    requires service.repository.Valid()
    modifies service.repository
    ensures service.repository.Valid()
    ensures emailFromToken(token).None? ==>
      r == Err(TokenRejected) && service.repository.users == old(service.repository.users)
    ensures emailFromToken(token).Some? && !EmailTaken(old(service.repository.users), emailFromToken(token).value) ==>
      r == Err(VerificationFailed) && service.repository.users == old(service.repository.users)
    ensures forall u :: u in old(service.repository.users) && emailFromToken(token) == Some(u.email) ==>
      if u.isVerified then
        r == Ok(Message(AlreadyConfirmed)) && service.repository.users == old(service.repository.users)
      else
        r == Ok(Message(EmailConfirmed))
        && service.repository.users == MarkVerified(old(service.repository.users), u.email)
  {
    var email := emailFromToken(token);
    if email.None? {
      return Err(TokenRejected);
    }
    var user := service.repository.GetUserByEmail(email.value);
    if user.None? {
      return Err(VerificationFailed);
    }
    if user.value.isVerified {
      return Ok(Message(AlreadyConfirmed));
    }
    var verified := service.VerifyEmail(email.value);
    assert verified == Ok(());
    r := Ok(Message(EmailConfirmed));
  }

  /** `request_email` as written: an unknown email ends in the service's
      404; a verified user gets "already confirmed"; an unverified one gets
      exactly one confirmation email queued. The store is never written. */
  method RequestEmail(service: UserService, body: EmailRequest, tasks: BackgroundTasks, baseUrl: string)
    returns (r: Result<Message, Failure>)
    requires service.repository.Valid()
    modifies tasks
    ensures !EmailTaken(service.repository.users, body.email) ==>
      r == Err(UserNotFound) && tasks.queued == old(tasks.queued)
    ensures forall u :: u in service.repository.users && u.email == body.email ==>
      if u.isVerified then
        r == Ok(Message(AlreadyConfirmed)) && tasks.queued == old(tasks.queued)
      else
        r == Ok(Message(CheckYourEmail))
        && tasks.queued == old(tasks.queued) + [EmailJob(u.email, u.username, baseUrl)]
  {
    var user := service.GetUserByEmail(body.email);
    if user.Err? {
      return Err(user.error);
    }
    if user.value.isVerified {
      return Ok(Message(AlreadyConfirmed));
    }
    tasks.AddSendEmail(user.value.email, user.value.username, baseUrl);
    r := Ok(Message(CheckYourEmail));
  }

  /** `request_email` with absence read from the repository: an unknown
      email gets the generic message and no email. */
  method RequestEmailIntended(service: UserService, body: EmailRequest, tasks: BackgroundTasks, baseUrl: string)
    returns (r: Result<Message, Failure>)
    requires service.repository.Valid()
    modifies tasks
    ensures !EmailTaken(service.repository.users, body.email) ==>
      r == Ok(Message(CheckYourEmail)) && tasks.queued == old(tasks.queued)
    ensures forall u :: u in service.repository.users && u.email == body.email ==>
      if u.isVerified then
        r == Ok(Message(AlreadyConfirmed)) && tasks.queued == old(tasks.queued)
      else
        r == Ok(Message(CheckYourEmail))
        && tasks.queued == old(tasks.queued) + [EmailJob(u.email, u.username, baseUrl)]
  {
    var user := service.repository.GetUserByEmail(body.email);
    if user.Some? && user.value.isVerified {
      return Ok(Message(AlreadyConfirmed));
    }
    if user.Some? {
      tasks.AddSendEmail(user.value.email, user.value.username, baseUrl);
    }
    r := Ok(Message(CheckYourEmail));
  }
}
