/** Verified scenarios on small stores. Each shows where the code as
    written and the evidently intended behaviour part ways; the last ones
    follow the intended register / confirm / login flow. The hasher, token
    codec and image host are fixed to simple stand-ins. */
module Findings {
  import opened Results
  import opened Models
  import opened Repository
  import opened External
  import opened Services
  import opened Auth

  const BaseUrl := "http://localhost:8000/"

  function StandInHash(p: string): string { "H:" + p }

  function StandInVerify(p: string, h: string): bool { h == "H:" + p }

  function StandInIssue(subject: string): string { "jwt:" + subject }

  const Alice := UserCreate("alice", "alice@x.com", "pw1")

  /** Registering a fresh email ends in the service's 404, and the
      intended handler creates the unverified user and queues one email. */
  method FreshRegistration() returns (asWritten: Result<UserRec, Failure>,
                                      intended: Result<UserRec, Failure>, queued: seq<EmailJob>)
    ensures asWritten == Err(UserNotFound)
    ensures intended.Ok? && intended.value.email == "alice@x.com" && !intended.value.isVerified
    ensures intended.value.hashedPassword == "H:pw1"
    ensures queued == [EmailJob("alice@x.com", "alice", BaseUrl)]
  {
    var repository := new UserRepository();
    var service := new UserService(repository);
    var tasks := new BackgroundTasks();
    asWritten := RegisterUser(service, Alice, tasks, BaseUrl, StandInHash);
    assert CanCreate([], "alice", "alice@x.com", "H:pw1", None);
    intended := RegisterUserIntended(service, Alice, tasks, BaseUrl, StandInHash);
    queued := tasks.queued;
  }

  /** The service's `create_user` never creates anyone: once both
      pre-checks pass, the dictionary it passes on has no `username`
      attribute. The body itself would have been stored. */
  method ServiceCreateWithDict() returns (asWritten: Result<UserRec, Failure>,
                                          intended: Result<UserRec, Failure>)
    ensures asWritten == Err(AttributeError("username"))
    ensures intended.Ok? && intended.value.username == "alice"
  {
    var repository := new UserRepository();
    var service := new UserService(repository);
    asWritten := service.CreateUser(Alice);
    assert CanCreate([], "alice", "alice@x.com", "pw1", None);
    intended := service.CreateUserIntended(Alice);
  }

  /** Logging in with an unknown email gives 404 as written, 401 as intended. */
  method UnknownEmailLogin() returns (asWritten: Result<TokenResponse, Failure>,
                                      intended: Result<TokenResponse, Failure>)
    ensures asWritten == Err(UserNotFound)
    ensures intended == Err(WrongCredentials)
  {
    var repository := new UserRepository();
    var service := new UserService(repository);
    var body := UserLogin("nobody@x.com", "pw");
    asWritten := LoginUser(service, body, StandInVerify, StandInIssue);
    intended := LoginUserIntended(service, body, StandInVerify, StandInIssue);
  }

  /** A valid token for an email nobody registered gives 404 as written,
      the handler's own 400 as intended. */
  method UnknownEmailConfirmation() returns (asWritten: Result<Message, Failure>,
                                             intended: Result<Message, Failure>)
    ensures asWritten == Err(UserNotFound)
    ensures intended == Err(VerificationFailed)
  {
    var repository := new UserRepository();
    var service := new UserService(repository);
    var decode := (t: string) => Some("nobody@x.com");
    asWritten := ConfirmedEmail(service, "token", decode);
    intended := ConfirmedEmailIntended(service, "token", decode);
  }

  /** Asking for a confirmation email for an unknown address gives 404 as
      written, the generic message as intended; neither queues mail. */
  method UnknownEmailResend() returns (asWritten: Result<Message, Failure>,
                                       intended: Result<Message, Failure>, queued: seq<EmailJob>)
    ensures asWritten == Err(UserNotFound)
    ensures intended == Ok(Message(CheckYourEmail))
    ensures queued == []
  {
    var repository := new UserRepository();
    var service := new UserService(repository);
    var tasks := new BackgroundTasks();
    asWritten := RequestEmail(service, EmailRequest("nobody@x.com"), tasks, BaseUrl);
    intended := RequestEmailIntended(service, EmailRequest("nobody@x.com"), tasks, BaseUrl);
    queued := tasks.queued;
  }

  const Photo := UploadFile("me.png", [1, 2, 3])

  /** As written, the handler's unawaited call uploads nothing and the one
      upload that happens is of that pending call, not of the file; as
      intended the file itself is uploaded, under the same public id. */
  method AvatarUploads() returns (asWritten: seq<UploadCall>, intended: seq<UploadCall>)
    ensures |intended| == 1 && intended[0].payload == FilePayload(Photo)
    ensures asWritten == [UploadCall(PendingUpload(Photo, "alice"), intended[0].publicId)]
  {
    var repository := new UserRepository();
    var service := new UserService(repository);
    assert CanCreate([], "alice", "alice@x.com", "pw1", None);
    var created := service.CreateUserIntended(Alice);
    var host := (p: Payload, publicId: string) => "https://img/" + publicId;

    var first := new UploadFileService(host);
    var r1 := UpdateAvatar(service, created.value, Photo, first);
    asWritten := first.calls;

    var second := new UploadFileService(host);
    var r2 := UpdateAvatarIntended(service, created.value, Photo, second);
    intended := second.calls;
  }

  /** A fresh store holding alice, registered through the intended
      handler and not yet confirmed. */
  method RegisteredAlice() returns (service: UserService, alice: UserRec)
    ensures fresh(service) && fresh(service.repository) && service.repository.Valid()
    ensures service.repository.users == [alice]
    ensures alice.email == "alice@x.com" && alice.hashedPassword == "H:pw1" && !alice.isVerified
  {
    var repository := new UserRepository();
    service := new UserService(repository);
    var tasks := new BackgroundTasks();
    assert CanCreate([], "alice", "alice@x.com", "H:pw1", None);
    var created := RegisterUserIntended(service, Alice, tasks, BaseUrl, StandInHash);
    alice := created.value;
  }

  /** Before confirmation the right password is refused with the
      "not confirmed" 401; a wrong one with the credentials 401; a second
      registration of the same email with 409. */
  method BeforeConfirmation() returns (login: Result<TokenResponse, Failure>,
                                       wrong: Result<TokenResponse, Failure>,
                                       again: Result<UserRec, Failure>)
    ensures login == Err(EmailNotConfirmed)
    ensures wrong == Err(WrongCredentials)
    ensures again == Err(EmailAlreadyRegistered)
  {
    var service, alice := RegisteredAlice();
    assert alice in service.repository.users;
    login := LoginUserIntended(service, UserLogin("alice@x.com", "pw1"), StandInVerify, StandInIssue);
    wrong := LoginUserIntended(service, UserLogin("alice@x.com", "nope"), StandInVerify, StandInIssue);
    var tasks := new BackgroundTasks();
    assert EmailTaken(service.repository.users, "alice@x.com");
    again := RegisterUserIntended(service, UserCreate("bob", "alice@x.com", "pw2"), tasks, BaseUrl, StandInHash);
  }

  /** Confirming alice with a token for her email, then logging in with
      her password, yields a bearer token issued for her email. */
  method ConfirmationThenLogin() returns (confirm: Result<Message, Failure>,
                                          login: Result<TokenResponse, Failure>)
    ensures confirm == Ok(Message(EmailConfirmed))
    ensures login == Ok(TokenResponse(StandInIssue("alice@x.com"), "bearer"))
  {
    var service, alice := RegisteredAlice();
    var decode := (t: string) => Some("alice@x.com");
    assert alice in service.repository.users && decode("confirm-alice") == Some(alice.email);
    confirm := ConfirmedEmailIntended(service, "confirm-alice", decode);
    MarkVerifiedAt([alice], "alice@x.com", 0);
    var confirmed := alice.(isVerified := true);
    assert service.repository.users[0] == confirmed;
    assert confirmed in service.repository.users && StandInVerify("pw1", confirmed.hashedPassword);
    login := LoginUserIntended(service, UserLogin("alice@x.com", "pw1"), StandInVerify, StandInIssue);
  }
}
