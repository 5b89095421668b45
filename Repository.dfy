/** UserRepository: the `users` table as the repository sees it. Each
    method is one atomic step (select, then add or field assignment, then
    commit); a commit that would break a column or unique constraint is
    refused and leaves the table as it was. */
module Repository {
  import opened Results
  import opened Models

  /** The registration body (`UserCreate`). */
  datatype UserCreate = UserCreate(username: string, email: string, password: string)

  /** What `create_user` can be handed: the schema object it reads by
      attribute, or the plain dictionary `body.dict()` produces. */
  datatype CreateArg = Schema(body: UserCreate) | Dict(entries: map<string, string>)

  class UserRepository {
    /** The rows of `users`, in insertion order. */
    var users: seq<UserRec>
    /** The next value of the id sequence. */
    var nextId: int

    ghost predicate Valid()
      reads this
    {
      && UsersValid(users)
      && forall k :: 0 <= k < |users| ==> users[k].id < nextId
    }

    constructor ()
      ensures Valid() && users == []
    {
      users := [];
      nextId := 1;
    }

    /** `select(User).filter(User.id == user_id)` then `scalar_one_or_none`. */
    function GetUserById(userId: int): (r: Option<UserRec>)
      reads this
      requires Valid()
      ensures r.Some? ==> r.value in users && r.value.id == userId
      ensures forall u :: u in users && u.id == userId ==> r == Some(u)
    {
      Lookup(users, ById(userId))
    }

    /** `select(User).filter(User.username == username)` then `scalar_one_or_none`. */
    function GetUserByUsername(username: string): (r: Option<UserRec>)
      reads this
      requires Valid()
      ensures r.Some? ==> r.value in users && r.value.username == username
      ensures forall u :: u in users && u.username == username ==> r == Some(u)
    {
      Lookup(users, ByUsername(username))
    }

    /** `select(User).filter(User.email == email)` then `scalar_one_or_none`. */
    function GetUserByEmail(email: string): (r: Option<UserRec>)
      reads this
      requires Valid()
      ensures r.Some? ==> r.value in users && r.value.email == email
      ensures forall u :: u in users && u.email == email ==> r == Some(u)
    {
      Lookup(users, ByEmail(email))
    }

    /** Builds the row from the argument's attributes (the password column
        takes `user.password` as given), adds it and commits. A dictionary
        has no `username` attribute, so it fails before anything is added. */
    method CreateUser(user: CreateArg, avatarUrl: Option<string>) returns (r: Result<UserRec, Failure>)
      requires Valid()
      modifies this
      ensures Valid()
      ensures user.Dict? ==> r == Err(AttributeError("username"))
      ensures user.Schema? ==>
        (r.Ok? <==> CanCreate(old(users), user.body.username, user.body.email, user.body.password, avatarUrl))
      ensures user.Schema? && r.Err? ==> r.error == IntegrityError
      ensures r.Ok? ==>
        && user.Schema?
        && r.value.username == user.body.username
        && r.value.email == user.body.email
        && r.value.hashedPassword == user.body.password
        && !r.value.isVerified
        && r.value.avatarUrl == avatarUrl
        && (forall u :: u in old(users) ==> u.id != r.value.id)
        && users == old(users) + [r.value]
      ensures r.Err? ==> users == old(users)
    {
      if user.Dict? {
        return Err(AttributeError("username"));
      }
      var dbUser := UserRec(nextId, user.body.username, user.body.email, user.body.password, false, avatarUrl);
      AppendValidIff(users, dbUser);
      if UsersValid(users + [dbUser]) {
        users := users + [dbUser];
        nextId := nextId + 1;
        r := Ok(dbUser);
      } else {
        r := Err(IntegrityError);
      }
    }

    /** Sets is_verified on the user with this email, if there is one. */
    method ConfirmedEmail(email: string)
      requires Valid()
      modifies this
      ensures Valid()
      ensures users == MarkVerified(old(users), email) && nextId == old(nextId)
    {
      var found := FindIndex(users, ByEmail(email));
      if found.Some? {
        var i := found.value;
        users := users[i := users[i].(isVerified := true)];
      }
    }

    /** Sets avatar_url on the user with this email and returns the updated
        row; returns None when there is no such user. */
    method UpdateAvatarUrl(email: string, url: string) returns (r: Result<Option<UserRec>, Failure>)
      requires Valid()
      modifies this
      ensures Valid() && nextId == old(nextId)
      ensures var found := Lookup(old(users), ByEmail(email));
        && (found.None? ==> r == Ok(None) && users == old(users))
        && (found.Some? && |url| <= AvatarUrlMaxLen ==>
              r == Ok(Some(found.value.(avatarUrl := Some(url))))
              && users == SetAvatar(old(users), email, url))
        && (found.Some? && |url| > AvatarUrlMaxLen ==> r == Err(IntegrityError) && users == old(users))
    {
      var found := FindIndex(users, ByEmail(email));
      if found.None? {
        return Ok(None);
      }
      var i := found.value;
      var updated := users[i].(avatarUrl := Some(url));
      var next := users[i := updated];
      SetAvatarValidIff(users, email, url);
      if UsersValid(next) {
        users := next;
        r := Ok(Some(updated));
      } else {
        r := Err(IntegrityError);
      }
    }
  }
}
