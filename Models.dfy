/** The `users` and `contacts` tables: record shapes, column limits,
    uniqueness and the foreign key, the keyed lookups the repository issues
    against the users table, and the two in-place updates it performs. */
module Models {
  import opened Results

  // Column widths of the users table.
  const UsernameMaxLen := 50
  const EmailMaxLen := 100
  const HashedPasswordMaxLen := 255
  const AvatarUrlMaxLen := 255

  // Column widths of the contacts table.
  const ContactNameMaxLen := 50
  const ContactSurnameMaxLen := 50
  const ContactEmailMaxLen := 100
  const ContactPhoneMaxLen := 20
  const ContactInfoMaxLen := 500

  /** One row of `users` (created_at is not modelled). Every column but
      avatar_url is non-null, which `string` and `bool` give for free. */
  datatype UserRec = UserRec(
    id: int,
    username: string,
    email: string,
    hashedPassword: string,
    isVerified: bool,
    avatarUrl: Option<string>)

  datatype Date = Date(year: int, month: int, day: int)

  /** One row of `contacts` (the timestamps are not modelled). */
  datatype ContactRec = ContactRec(
    id: int,
    name: string,
    surname: string,
    email: string,
    phone: string,
    birthday: Date,
    info: Option<string>,
    userId: int)

  /** The row fits the column widths of `users`. */
  predicate UserFits(u: UserRec) {
    && |u.username| <= UsernameMaxLen
    && |u.email| <= EmailMaxLen
    && |u.hashedPassword| <= HashedPasswordMaxLen
    && (u.avatarUrl.Some? ==> |u.avatarUrl.value| <= AvatarUrlMaxLen)
  }

  /** The constraints of `users`: every row fits its columns, and the
      primary key, username and email are each unique. */
  predicate UsersValid(users: seq<UserRec>) {
    && (forall k :: 0 <= k < |users| ==> UserFits(users[k]))
    && (forall i, j :: 0 <= i < j < |users| ==>
          && users[i].id != users[j].id
          && users[i].username != users[j].username
          && users[i].email != users[j].email)
  }

  predicate ContactFits(c: ContactRec) {
    && |c.name| <= ContactNameMaxLen
    && |c.surname| <= ContactSurnameMaxLen
    && |c.email| <= ContactEmailMaxLen
    && |c.phone| <= ContactPhoneMaxLen
    && (c.info.Some? ==> |c.info.value| <= ContactInfoMaxLen)
  }

  /** The row's user_id names an existing user. */
  ghost predicate OwnerExists(c: ContactRec, users: seq<UserRec>) {
    exists k :: 0 <= k < |users| && users[k].id == c.userId
  }

  /** The constraints of `contacts`: column widths, unique id, email and
      phone, and the foreign key into `users`. */
  ghost predicate ContactsValid(contacts: seq<ContactRec>, users: seq<UserRec>) {
    && (forall k :: 0 <= k < |contacts| ==> ContactFits(contacts[k]))
    && (forall i, j :: 0 <= i < j < |contacts| ==>
          && contacts[i].id != contacts[j].id
          && contacts[i].email != contacts[j].email
          && contacts[i].phone != contacts[j].phone)
    && (forall k :: 0 <= k < |contacts| ==> OwnerExists(contacts[k], users))
  }

  /** The WHERE clause of a keyed lookup. */
  datatype Key = ById(id: int) | ByUsername(username: string) | ByEmail(email: string)

  predicate Matches(u: UserRec, key: Key) {
    match key
    case ById(n) => u.id == n
    case ByUsername(n) => u.username == n
    case ByEmail(e) => u.email == e
  }

  /** Position of the first row the key selects, if any. */
  function FindIndex(users: seq<UserRec>, key: Key): (r: Option<nat>)
    ensures r.Some? ==> r.value < |users| && Matches(users[r.value], key)
    ensures r.Some? ==> forall k :: 0 <= k < r.value ==> !Matches(users[k], key)
    ensures r.None? ==> forall k :: 0 <= k < |users| ==> !Matches(users[k], key)
  {
    if |users| == 0 then None
    else if Matches(users[0], key) then Some(0)
    else match FindIndex(users[1..], key)
      case None => None
      case Some(i) => Some(i + 1)
  }

  /** In a valid table a key selects at most one row, so the first match
      is the only one. */
  lemma OnlyMatch(users: seq<UserRec>, key: Key, k: nat)
    requires UsersValid(users)
    requires k < |users| && Matches(users[k], key)
    ensures FindIndex(users, key) == Some(k)
  {
  }

  /** `scalar_one_or_none` over a valid table: the one row the key
      selects, or None when there is none. */
  function Lookup(users: seq<UserRec>, key: Key): (r: Option<UserRec>)
    requires UsersValid(users)
    ensures r.Some? ==> r.value in users && Matches(r.value, key)
    ensures forall k :: 0 <= k < |users| && Matches(users[k], key) ==> r == Some(users[k])
  {
    match FindIndex(users, key)
    case None => None
    case Some(i) =>
      assert forall k :: 0 <= k < |users| && Matches(users[k], key) ==> k == i by {
        forall k | 0 <= k < |users| && Matches(users[k], key) ensures k == i { OnlyMatch(users, key, k); }
      }
      Some(users[i])
  }

  /** Some row of the table carries this email. */
  predicate EmailTaken(users: seq<UserRec>, email: string) {
    exists k :: 0 <= k < |users| && users[k].email == email
  }

  /** Some row of the table carries this username. */
  predicate UsernameTaken(users: seq<UserRec>, username: string) {
    exists k :: 0 <= k < |users| && users[k].username == username
  }

  /** A new row with these columns would fit its columns and clash with
      no existing username or email. */
  predicate CanCreate(users: seq<UserRec>, username: string, email: string,
                      hashedPassword: string, avatarUrl: Option<string>)
  {
    && |username| <= UsernameMaxLen
    && |email| <= EmailMaxLen
    && |hashedPassword| <= HashedPasswordMaxLen
    && (avatarUrl.Some? ==> |avatarUrl.value| <= AvatarUrlMaxLen)
    && !UsernameTaken(users, username)
    && !EmailTaken(users, email)
  }

  /** Appending a row with a fresh id keeps the table valid exactly when
      the row fits its columns and clashes with no username or email. */
  lemma AppendValidIff(users: seq<UserRec>, rec: UserRec)
    requires UsersValid(users)
    requires forall k :: 0 <= k < |users| ==> users[k].id != rec.id
    ensures UsersValid(users + [rec]) <==>
      UserFits(rec) && !UsernameTaken(users, rec.username) && !EmailTaken(users, rec.email)
  {
    var t := users + [rec];
    if UserFits(rec) && !UsernameTaken(users, rec.username) && !EmailTaken(users, rec.email) {
      forall i, j | 0 <= i < j < |t|
        ensures t[i].id != t[j].id && t[i].username != t[j].username && t[i].email != t[j].email
      {
        if j == |users| {
          assert t[i] == users[i] && t[j] == rec;
        }
      }
    }
    if UsersValid(t) {
      forall k | 0 <= k < |users|
        ensures users[k].username != rec.username && users[k].email != rec.email
      {
        assert t[k] == users[k] && t[|users|] == rec;
      }
      assert UserFits(t[|users|]);
    }
  }

  /** After an append the new row is what every key of it selects. */
  lemma AppendedRowIsFound(users: seq<UserRec>, rec: UserRec)
    requires UsersValid(users + [rec])
    ensures Lookup(users + [rec], ById(rec.id)) == Some(rec)
    ensures Lookup(users + [rec], ByUsername(rec.username)) == Some(rec)
    ensures Lookup(users + [rec], ByEmail(rec.email)) == Some(rec)
  {
    var t := users + [rec];
    assert t[|users|] == rec;
  }

  /** `confirmed_email`: the row the email selects, if any, gets
      is_verified = true; nothing else changes. */
  function MarkVerified(users: seq<UserRec>, email: string): (r: seq<UserRec>)
    ensures |r| == |users|
    ensures forall k :: 0 <= k < |r| ==>
      r[k] == users[k] || (users[k].email == email && r[k] == users[k].(isVerified := true))
    ensures EmailTaken(users, email) ==> exists k :: 0 <= k < |r| && r[k].email == email && r[k].isVerified
    ensures !EmailTaken(users, email) ==> r == users
  {
    match FindIndex(users, ByEmail(email))
    case None => users
    case Some(i) => users[i := users[i].(isVerified := true)]
  }

  /** `update_avatar_url`: the row the email selects, if any, gets
      avatar_url = url; nothing else changes. */
  function SetAvatar(users: seq<UserRec>, email: string, url: string): (r: seq<UserRec>)
    ensures |r| == |users|
    ensures forall k :: 0 <= k < |r| ==>
      r[k] == users[k] || (users[k].email == email && r[k] == users[k].(avatarUrl := Some(url)))
    ensures EmailTaken(users, email) ==> exists k :: 0 <= k < |r| && r[k].email == email && r[k].avatarUrl == Some(url)
    ensures !EmailTaken(users, email) ==> r == users
  {
    match FindIndex(users, ByEmail(email))
    case None => users
    case Some(i) => users[i := users[i].(avatarUrl := Some(url))]
  }

  /** In a valid table the email selects one row, so exactly that row is
      marked verified. */
  lemma MarkVerifiedAt(users: seq<UserRec>, email: string, k: nat)
    requires UsersValid(users) && k < |users|
    ensures MarkVerified(users, email)[k] ==
      if users[k].email == email then users[k].(isVerified := true) else users[k]
  {
    if users[k].email == email {
      OnlyMatch(users, ByEmail(email), k);
    }
  }

  /** In a valid table exactly the row the email selects gets the URL. */
  lemma SetAvatarAt(users: seq<UserRec>, email: string, url: string, k: nat)
    requires UsersValid(users) && k < |users|
    ensures SetAvatar(users, email, url)[k] ==
      if users[k].email == email then users[k].(avatarUrl := Some(url)) else users[k]
  {
    if users[k].email == email {
      OnlyMatch(users, ByEmail(email), k);
    }
  }

  /** Confirmation changes at most one row of a valid table. */
  lemma MarkVerifiedTouchesOneRow(users: seq<UserRec>, email: string, i: nat, j: nat)
    requires UsersValid(users) && i < j < |users|
    ensures MarkVerified(users, email)[i] == users[i] || MarkVerified(users, email)[j] == users[j]
  {
    MarkVerifiedAt(users, email, i);
    MarkVerifiedAt(users, email, j);
  }

  /** An avatar update changes at most one row of a valid table. */
  lemma SetAvatarTouchesOneRow(users: seq<UserRec>, email: string, url: string, i: nat, j: nat)
    requires UsersValid(users) && i < j < |users|
    ensures SetAvatar(users, email, url)[i] == users[i] || SetAvatar(users, email, url)[j] == users[j]
  {
    SetAvatarAt(users, email, url, i);
    SetAvatarAt(users, email, url, j);
  }

  /** A lookup gives the same answer on two tables whose rows agree on
      whether the key selects them. */
  lemma {:induction false} FindIndexAgrees(a: seq<UserRec>, b: seq<UserRec>, key: Key)
    requires |a| == |b|
    requires forall k :: 0 <= k < |a| ==> (Matches(a[k], key) <==> Matches(b[k], key))
    ensures FindIndex(a, key) == FindIndex(b, key)
  {
    if |a| > 0 && !Matches(a[0], key) {
      FindIndexAgrees(a[1..], b[1..], key);
    }
  }

  /** Confirming twice is confirming once. */
  lemma MarkVerifiedIdempotent(users: seq<UserRec>, email: string)
    ensures MarkVerified(MarkVerified(users, email), email) == MarkVerified(users, email)
  {
    var once := MarkVerified(users, email);
    FindIndexAgrees(users, once, ByEmail(email));
  }

  /** Confirming a user who is already verified leaves the table as it is. */
  lemma MarkVerifiedOfVerified(users: seq<UserRec>, email: string, k: nat)
    requires UsersValid(users) && k < |users|
    requires users[k].email == email && users[k].isVerified
    ensures MarkVerified(users, email) == users
  {
    OnlyMatch(users, ByEmail(email), k);
    assert users[k].(isVerified := true) == users[k];
  }

  /** Confirmation keeps the table valid. */
  lemma MarkVerifiedValid(users: seq<UserRec>, email: string)
    requires UsersValid(users)
    ensures UsersValid(MarkVerified(users, email))
  {
  }

  /** An avatar update on an existing email keeps the table valid exactly
      when the URL fits avatar_url. */
  lemma SetAvatarValidIff(users: seq<UserRec>, email: string, url: string)
    requires UsersValid(users) && EmailTaken(users, email)
    ensures UsersValid(SetAvatar(users, email, url)) <==> |url| <= AvatarUrlMaxLen
  {
    var r := SetAvatar(users, email, url);
    var k :| 0 <= k < |r| && r[k].email == email && r[k].avatarUrl == Some(url);
    assert !UserFits(r[k]) <== |url| > AvatarUrlMaxLen;
  }

  /** The rows keep their ids from `before` to `after`, and `after` may
      hold more rows. */
  predicate IdsKept(before: seq<UserRec>, after: seq<UserRec>) {
    |before| <= |after| && forall k :: 0 <= k < |before| ==> after[k].id == before[k].id
  }

  /** A change to `users` that keeps every id keeps the contacts'
      foreign key satisfied. */
  lemma ContactsSurvive(contacts: seq<ContactRec>, before: seq<UserRec>, after: seq<UserRec>)
    requires ContactsValid(contacts, before) && IdsKept(before, after)
    ensures ContactsValid(contacts, after)
  {
    forall c | 0 <= c < |contacts| ensures OwnerExists(contacts[c], after) {
      assert OwnerExists(contacts[c], before);
      var k :| 0 <= k < |before| && before[k].id == contacts[c].userId;
      assert after[k].id == contacts[c].userId;
    }
  }

  /** Every mutation of the repository keeps ids. */
  lemma MutationsKeepIds(users: seq<UserRec>, email: string, url: string, rec: UserRec)
    ensures IdsKept(users, MarkVerified(users, email))
    ensures IdsKept(users, SetAvatar(users, email, url))
    ensures IdsKept(users, users + [rec])
  {
  }

  /** No mutation of the repository turns a verified user back into an
      unverified one. */
  lemma NeverReverts(users: seq<UserRec>, email: string, url: string, rec: UserRec, k: nat)
    requires k < |users| && users[k].isVerified
    ensures MarkVerified(users, email)[k].isVerified
    ensures SetAvatar(users, email, url)[k].isVerified
    ensures (users + [rec])[k].isVerified
  {
  }
}
