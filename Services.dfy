/** UserService: the layer between the handlers and the repository. Its
    lookups turn a miss into a 404 HTTPException; creation adds a
    uniqueness pre-check; the avatar update uploads before it looks the
    user up. */
module Services {
  import opened Results
  import opened Models
  import opened Repository
  import opened External

  const UserNotFound := HttpError(404, "User not found", None)
  const EmailExists := HttpError(409, "User with this email already exists", None)
  const UsernameExists := HttpError(409, "User with this username already exists", None)

  /** The character of one decimal digit. */
  function DigitChar(d: nat): (c: char)
    requires d < 10
    ensures IsDigit(c) && c as int - '0' as int == d
  {
    ('0' as int + d) as char
  }

  predicate IsDigit(c: char) {
    '0' <= c <= '9'
  }

  /** The decimal digits of `n`, most significant first, with no leading
      zero except for `n == 0` itself. */
  function Digits(n: nat): (s: string)
    ensures |s| > 0 && forall i :: 0 <= i < |s| ==> IsDigit(s[i])
    ensures s[0] == '0' <==> n == 0
  {
    if n < 10 then [DigitChar(n)] else Digits(n / 10) + [DigitChar(n % 10)]
  }

  /** The number a string of decimal digits denotes. */
  function DigitsValue(s: string): nat
    requires forall i :: 0 <= i < |s| ==> IsDigit(s[i])
  {
    if |s| == 0 then 0
    else
      assert IsDigit(s[|s| - 1]);
      DigitsValue(s[..|s| - 1]) * 10 + (s[|s| - 1] as int - '0' as int)
  }

  /** Reading back the digits of `n` gives `n`. */
  lemma {:induction false} DigitsRoundTrip(n: nat)
    ensures DigitsValue(Digits(n)) == n
  {
    if n >= 10 {
      var s := Digits(n);
      assert s[..|s| - 1] == Digits(n / 10);
      DigitsRoundTrip(n / 10);
    }
  }

  /** Python's `str(n)` for an int: a minus sign exactly for negative `n`,
      then the digits of its magnitude. */
  function Decimal(n: int): (s: string)
    ensures |s| > 0 && (s[0] == '-' <==> n < 0)
    ensures n >= 0 ==> (forall i :: 0 <= i < |s| ==> IsDigit(s[i])) && DigitsValue(s) == n
  {
    DigitsRoundTrip(if n < 0 then -n else n);
    if n < 0 then "-" + Digits(-n) else Digits(n)
  }

  /** Different ints have different decimal forms. */
  lemma DecimalInjective(a: int, b: int)
    requires Decimal(a) == Decimal(b)
    ensures a == b
  {
    if a < 0 && b < 0 {
      assert Decimal(a)[1..] == Digits(-a);
      assert Decimal(b)[1..] == Digits(-b);
      DigitsRoundTrip(-a);
      DigitsRoundTrip(-b);
    }
  }

  /** The public id `f"user_{user_id}"` under which an avatar is stored. */
  function AvatarPublicId(userId: int): (r: string)
    ensures |r| > 5 && r[..5] == "user_"
    ensures userId >= 0 ==> (forall i :: 5 <= i < |r| ==> IsDigit(r[i])) && DigitsValue(r[5..]) == userId
  {
    assert ("user_" + Decimal(userId))[5..] == Decimal(userId);
    "user_" + Decimal(userId)
  }

  /** Two users never share a public id, so one user's upload never
      replaces another user's image. */
  lemma AvatarPublicIdInjective(a: int, b: int)
    requires AvatarPublicId(a) == AvatarPublicId(b)
    ensures a == b
  {
    assert AvatarPublicId(a)[5..] == Decimal(a);
    assert AvatarPublicId(b)[5..] == Decimal(b);
    DecimalInjective(a, b);
  }

  class UserService {
    const repository: UserRepository

    constructor (repository: UserRepository)
      ensures this.repository == repository
    {
      this.repository := repository;
    }

    /** The user with this id, or a 404; never absence. */
    function GetUserById(userId: int): (r: Result<UserRec, Failure>)
      reads repository
      requires repository.Valid()
      ensures r.Ok? ==> r.value in repository.users && r.value.id == userId
      ensures r.Err? ==> r.error == UserNotFound
      ensures forall u :: u in repository.users && u.id == userId ==> r == Ok(u)
    {
      match repository.GetUserById(userId)
      case None => Err(UserNotFound)
      case Some(u) => Ok(u)
    }

    /** The user with this username, or a 404; never absence. */
    function GetUserByUsername(username: string): (r: Result<UserRec, Failure>)
      reads repository
      requires repository.Valid()
      ensures r.Ok? ==> r.value in repository.users && r.value.username == username
      ensures r.Err? ==> r.error == UserNotFound
      ensures forall u :: u in repository.users && u.username == username ==> r == Ok(u)
    {
      match repository.GetUserByUsername(username)
      case None => Err(UserNotFound)
      case Some(u) => Ok(u)
    }

    /** The user with this email, or a 404; never absence. */
    function GetUserByEmail(email: string): (r: Result<UserRec, Failure>)
      reads repository
      requires repository.Valid()
      ensures r.Ok? ==> r.value in repository.users && r.value.email == email
      ensures r.Err? ==> r.error == UserNotFound
      ensures forall u :: u in repository.users && u.email == email ==> r == Ok(u)
    {
      match repository.GetUserByEmail(email)
      case None => Err(UserNotFound)
      case Some(u) => Ok(u)
    }

    /** `create_user` as written: after both pre-checks pass it hands the
        repository `body.dict()`, which the repository reads by attribute,
        so no user is ever created. */
    method CreateUser(body: UserCreate) returns (r: Result<UserRec, Failure>)
      requires repository.Valid()
      modifies repository
      ensures repository.Valid()
      ensures repository.users == old(repository.users)
      ensures EmailTaken(old(repository.users), body.email) ==> r == Err(EmailExists)
      ensures !EmailTaken(old(repository.users), body.email) && UsernameTaken(old(repository.users), body.username) ==>
        r == Err(UsernameExists)
      ensures !EmailTaken(old(repository.users), body.email) && !UsernameTaken(old(repository.users), body.username) ==>
        r == Err(AttributeError("username"))
    {
      if repository.GetUserByEmail(body.email).Some? {
        return Err(EmailExists);
      }
      if repository.GetUserByUsername(body.username).Some? {
        return Err(UsernameExists);
      }
      var asDict := map["username" := body.username, "email" := body.email, "password" := body.password];
      r := repository.CreateUser(Dict(asDict), None);
    }

    /** `create_user` with the body itself handed to the repository: the
        pre-checks, then exactly one new unverified user without avatar. */
    method CreateUserIntended(body: UserCreate) returns (r: Result<UserRec, Failure>)
      requires repository.Valid()
      modifies repository
      ensures repository.Valid()
      ensures EmailTaken(old(repository.users), body.email) ==> r == Err(EmailExists)
      ensures !EmailTaken(old(repository.users), body.email) && UsernameTaken(old(repository.users), body.username) ==>
        r == Err(UsernameExists)
      ensures !EmailTaken(old(repository.users), body.email) && !UsernameTaken(old(repository.users), body.username) ==>
        (r.Ok? <==> CanCreate(old(repository.users), body.username, body.email, body.password, None))
      ensures (!EmailTaken(old(repository.users), body.email) && !UsernameTaken(old(repository.users), body.username)
               && !CanCreate(old(repository.users), body.username, body.email, body.password, None)) ==>
        r == Err(IntegrityError)
      ensures r.Ok? ==>
        && r.value.username == body.username
        && r.value.email == body.email
        && r.value.hashedPassword == body.password
        && !r.value.isVerified
        && r.value.avatarUrl == None
        && repository.users == old(repository.users) + [r.value]
      ensures r.Err? ==> repository.users == old(repository.users)
    {
      if repository.GetUserByEmail(body.email).Some? {
        return Err(EmailExists);
      }
      if repository.GetUserByUsername(body.username).Some? {
        return Err(UsernameExists);
      }
      r := repository.CreateUser(Schema(body), None);
    }

    /** Uploads the payload as `user_<id>`, then looks the user up by id and
        stores the returned URL in its avatar_url. The upload happens even
        when the user is missing. */
    method UpdateAvatar(userId: int, file: Payload, uploader: UploadFileService)
      returns (r: Result<Option<UserRec>, Failure>)
      requires repository.Valid()
      modifies repository, uploader
      ensures repository.Valid()
      ensures uploader.calls == old(uploader.calls) + [UploadCall(file, AvatarPublicId(userId))]
      ensures var url := uploader.host(file, AvatarPublicId(userId));
        var found := Lookup(old(repository.users), ById(userId));
        && (found.None? ==> r == Err(UserNotFound) && repository.users == old(repository.users))
        && (found.Some? && |url| <= AvatarUrlMaxLen ==>
              r == Ok(Some(found.value.(avatarUrl := Some(url))))
              && repository.users == SetAvatar(old(repository.users), found.value.email, url))
        && (found.Some? && |url| > AvatarUrlMaxLen ==>
              r == Err(IntegrityError) && repository.users == old(repository.users))
    {
      var avatarUrl := uploader.Upload(file, AvatarPublicId(userId));
      var user := repository.GetUserById(userId);
      if user.None? {
        return Err(UserNotFound);
      }
      r := repository.UpdateAvatarUrl(user.value.email, avatarUrl);
    }

    /** 404 for an unknown email; otherwise the user ends up verified and
        nothing else changes. */
    method VerifyEmail(email: string) returns (r: Result<(), Failure>)
      requires repository.Valid()
      modifies repository
      ensures repository.Valid()
      ensures !EmailTaken(old(repository.users), email) ==>
        r == Err(UserNotFound) && repository.users == old(repository.users)
      ensures EmailTaken(old(repository.users), email) ==>
        r == Ok(()) && repository.users == MarkVerified(old(repository.users), email)
      ensures forall u :: u in repository.users && u.email == email ==> u.isVerified
    {
      var user := repository.GetUserByEmail(email);
      if user.None? {
        return Err(UserNotFound);
      }
      repository.ConfirmedEmail(email);
      r := Ok(());
    }
  }
}
