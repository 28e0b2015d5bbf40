/** The user handlers of src/routes/v1/user.rs: lookup with follower count,
    registration with its duplicate check, and the partial update by email. */
module Users {
  import opened Query
  import opened Schema
  import opened Responses
  import opened Pool

  /** The query string of `GET /user`. */
  datatype UserQuery = UserQuery(email: Option<string>, username: Option<string>)

  /** A found user together with the number of users following them. */
  datatype UserView = UserView(user: User, followCount: nat)

  function WithUsername(n: string): User -> bool { (u: User) => u.username == n }
  function WithEmail(e: string): User -> bool { (u: User) => u.email == e }
  function FollowsUser(id: int): Follow -> bool { (f: Follow) => f.followedUserId == id }

  /** `follows.filter(followed_user_id.eq(id)).count()`: zero exactly when no
      follow row names `id` as the followed user. */
  function FollowerCount(db: Db, id: int): (r: nat)
    ensures r <= |db.follows|
    ensures r == 0 <==> forall f :: f in db.follows ==> f.followedUserId != id
  {
    var rows := Filter(db.follows, FollowsUser(id));
    assert rows != [] ==> rows[0] in rows;
    |rows|
  }

  /** The row a user query asks for: by username when one is given, and by
      email only when it is not. */
  predicate Selects(q: UserQuery, u: User) {
    if q.username.Some? then u.username == q.username.value
    else q.email.Some? && u.email == q.email.value
  }

  /** `GET /user`: the first user matching the query, with its follower count. */
  function GetUser(db: Db, q: UserQuery, b: Backend): (r: Result<UserView>)
    ensures !b.poolAvailable ==> r == Err(DbConnectionFailed)
    ensures b.poolAvailable ==> (r == Err(InvalidQuery) <==> q.username.None? && q.email.None?)
    ensures r == Err(UserNotFound) <==>
              && b.poolAvailable
              && (q.username.Some? || q.email.Some?)
              && forall u :: u in db.users ==> !Selects(q, u)
    ensures r.Ok? ==> exists k :: 0 <= k < |db.users|
                                  && r.value.user == db.users[k]
                                  && Selects(q, db.users[k])
                                  && forall j :: 0 <= j < k ==> !Selects(q, db.users[j])
    ensures r.Ok? ==> r.value.followCount == FollowerCount(db, r.value.user.id)
    ensures b.poolAvailable && (q.username.Some? || q.email.Some?) && (exists u :: u in db.users && Selects(q, u)) ==> r.Ok?
  {
    if !b.poolAvailable then Err(DbConnectionFailed)
    else if q.username.None? && q.email.None? then Err(InvalidQuery)
    else
      var filter := if q.username.Some? then WithUsername(q.username.value) else WithEmail(q.email.value);
      var results := Filter(db.users, filter);
      if results == [] then Err(UserNotFound)
      else
        FilterHead(db.users, filter);
        Ok(UserView(results[0], FollowerCount(db, results[0].id)))
  }

  /** A supplied username decides the lookup; the email is then ignored. */
  lemma UsernameBeatsEmail(db: Db, n: string, e: Option<string>, b: Backend)
    ensures GetUser(db, UserQuery(e, Some(n)), b) == GetUser(db, UserQuery(None, Some(n)), b)
  {
  }

  /** The form of `POST /user`. */
  datatype Registration = Registration(email: string, username: string, password: string)

  /** The user value the registration handler builds and echoes back: the
      submitted fields, and `User::default()` for the rest. The store fills in
      `id` and `created_at`. */
  datatype NewUser = NewUser(
    name: string,
    email: string,
    username: string,
    profilePicture: Option<string>,
    password: string,
    companyPositionId: Option<int>,
    role: int)

  function Draft(reg: Registration): NewUser {
    NewUser("", reg.email, reg.username, None, reg.password, None, 0)
  }

  /** The row the store holds after inserting `nu`. */
  function Stored(nu: NewUser, id: int, at: Timestamp): User {
    User(id, at, nu.name, nu.email, nu.username, nu.profilePicture, nu.password, nu.companyPositionId, nu.role)
  }

  /** `email.eq(..).or(username.eq(..))`, the duplicate check's filter. */
  function Collides(reg: Registration): User -> bool {
    (u: User) => u.email == reg.email || u.username == reg.username
  }

  /** No row before index `i` shares the email or the username. */
  ghost predicate NoCollisionBefore(us: seq<User>, reg: Registration, i: int)
    requires 0 <= i <= |us|
  {
    forall j :: 0 <= j < i ==> us[j].email != reg.email && us[j].username != reg.username
  }

  /** `POST /user`: reject when some row shares the email or the username,
      otherwise insert exactly one user. */
  function Register(db: Db, reg: Registration, b: Backend): (r: Reply<NewUser>)
    ensures r.result.Err? ==> r.db == db
    ensures !b.poolAvailable ==> r.result == Err(DbConnectionFailed)
    ensures b.poolAvailable && b.Fails(0) ==> r.result == Err(CheckUserFailed)
    ensures b.poolAvailable && !b.Fails(0) && (forall u :: u in db.users ==> !Collides(reg)(u)) && b.Fails(1) ==>
              r.result == Err(AddUserFailed)
    ensures r.result.Ok? <==>
              && b.poolAvailable && !b.Fails(0) && !b.Fails(1)
              && forall u :: u in db.users ==> u.email != reg.email && u.username != reg.username
    ensures r.result.Ok? ==>
              && r.db == db.(users := r.db.users)
              && |r.db.users| == |db.users| + 1
              && r.db.users[..|db.users|] == db.users
              && var u := r.db.users[|db.users|];
                 && u.id !in UserIds(db)
                 && u.createdAt == b.now
                 && u.email == reg.email && u.username == reg.username && u.password == reg.password
                 && u.name == "" && u.profilePicture == None && u.companyPositionId == None && u.role == 0
                 && r.result.value == NewUser(u.name, u.email, u.username, u.profilePicture,
                                              u.password, u.companyPositionId, u.role)
  {
    if !b.poolAvailable then Reply(Err(DbConnectionFailed), db)
    else if b.Fails(0) then Reply(Err(CheckUserFailed), db)
    else
      var existing := First(db.users, Collides(reg));
      if existing.Some? && db.users[existing.value].email == reg.email then Reply(Err(DuplicateEmail), db)
      else if existing.Some? && db.users[existing.value].username == reg.username then Reply(Err(DuplicateUsername), db)
      else if b.Fails(1) then Reply(Err(AddUserFailed), db)
      else
        var nu := Draft(reg);
        Reply(Ok(nu), db.(users := db.users + [Stored(nu, NextId(db.users, UserKey), b.now)]))
  }

  /** Which duplicate is reported depends on the first row sharing the email or
      the username: `duplicate_email` when that row has the email (whether or
      not it also has the username), `duplicate_username` otherwise. */
  lemma RegisterDuplicateKind(db: Db, reg: Registration, b: Backend)
    requires b.poolAvailable && !b.Fails(0)
    ensures Register(db, reg, b).result == Err(DuplicateEmail) <==>
              exists i :: 0 <= i < |db.users| && db.users[i].email == reg.email
                          && NoCollisionBefore(db.users, reg, i)
    ensures Register(db, reg, b).result == Err(DuplicateUsername) <==>
              exists i :: 0 <= i < |db.users| && db.users[i].email != reg.email
                          && db.users[i].username == reg.username
                          && NoCollisionBefore(db.users, reg, i)
  {
    var existing := First(db.users, Collides(reg));
    forall i | 0 <= i < |db.users| && Collides(reg)(db.users[i]) && NoCollisionBefore(db.users, reg, i)
      ensures existing == Some(i)
    {
    }
    if existing.Some? {
      assert NoCollisionBefore(db.users, reg, existing.value);
    }
  }

  /** The email check only sees the first colliding row: a user holding the
      requested username, stored before a user holding the requested email,
      makes registration report `duplicate_username`. */
  lemma EarlierUsernameRowWins(b: Backend, at: Timestamp)
    requires b.poolAvailable && !b.Fails(0)
    ensures var a := User(1, at, "", "a@x.com", "dup", None, "p", None, 0);
            var c := User(2, at, "", "dup@x.com", "c", None, "p", None, 0);
            var db := Db([a, c], [], [], [], [], []);
            Register(db, Registration("dup@x.com", "dup", "q"), b).result == Err(DuplicateUsername)
  {
    var a := User(1, at, "", "a@x.com", "dup", None, "p", None, 0);
    var c := User(2, at, "", "dup@x.com", "c", None, "p", None, 0);
    var reg := Registration("dup@x.com", "dup", "q");
    assert First([a, c], Collides(reg)) == Some(0);
  }

  /** A registered user is found again by username, with every submitted field
      as given and nobody following them yet. */
  lemma RegisterThenGetUser(db: Db, reg: Registration, b: Backend, b': Backend)
    requires Valid(db)
    requires Register(db, reg, b).result.Ok?
    requires b'.poolAvailable
    ensures var db' := Register(db, reg, b).db;
            var u := db'.users[|db.users|];
            && GetUser(db', UserQuery(None, Some(reg.username)), b') == Ok(UserView(u, 0))
            && GetUser(db', UserQuery(Some(reg.email), None), b') == Ok(UserView(u, 0))
            && u.email == reg.email && u.username == reg.username && u.password == reg.password
  {
    var db' := Register(db, reg, b).db;
    var u := db'.users[|db.users|];
    assert db'.users == db.users + [u];
    NoFollowersOfUnknownUser(db, u.id);
    assert FollowerCount(db', u.id) == 0;
    LookupAfterInsert(db.users, db', u, UserQuery(None, Some(reg.username)), b');
    LookupAfterInsert(db.users, db', u, UserQuery(Some(reg.email), None), b');
  }

  /** A lookup that matched no row before a row was appended finds that row. */
  lemma LookupAfterInsert(us: seq<User>, db': Db, u: User, q: UserQuery, b': Backend)
    requires db'.users == us + [u]
    requires b'.poolAvailable && (q.username.Some? || q.email.Some?)
    requires forall v :: v in us ==> !Selects(q, v)
    requires Selects(q, u)
    requires FollowerCount(db', u.id) == 0
    ensures GetUser(db', q, b') == Ok(UserView(u, 0))
  {
    var filter := if q.username.Some? then WithUsername(q.username.value) else WithEmail(q.email.value);
    SoleMatchAfterInsert(us, u, filter);
  }

  /** A row appended to a table where nothing matched is then the only match. */
  lemma SoleMatchAfterInsert(us: seq<User>, u: User, p: User -> bool)
    requires forall v :: v in us ==> !p(v)
    requires p(u)
    ensures Filter(us + [u], p) == [u]
  {
    FilterAppend(us, [u], p);
    FilterNone(us, p);
    assert Filter([u], p) == [u];
  }

  /** Under the invariant, nobody follows an id that names no user. */
  lemma NoFollowersOfUnknownUser(db: Db, id: int)
    requires Valid(db)
    requires id !in UserIds(db)
    ensures FollowerCount(db, id) == 0
  {
    forall f | f in db.follows ensures !FollowsUser(id)(f) {
    }
    FilterNone(db.follows, FollowsUser(id));
  }

  /** The form of `POST /user/update`: the email that selects the rows, and
      the fields to overwrite. */
  datatype UserForm = UserForm(oldEmail: string, email: Option<string>, username: Option<string>, password: Option<string>)

  /** The changeset: each supplied field replaces the stored one, the other
      columns are kept, and applying it a second time changes nothing more. */
  function Patch(form: UserForm): (r: User -> User)
    ensures forall u :: r(u) == u.(email := r(u).email, username := r(u).username, password := r(u).password)
    ensures forall u :: r(u).email == (if form.email.Some? then form.email.value else u.email)
    ensures forall u :: r(u).username == (if form.username.Some? then form.username.value else u.username)
    ensures forall u :: r(u).password == (if form.password.Some? then form.password.value else u.password)
    ensures forall u :: r(r(u)) == r(u)
  {
    (u: User) => u.(email := form.email.GetOr(u.email),
            username := form.username.GetOr(u.username),
            password := form.password.GetOr(u.password))
  }

  /** The changeset has no field to set. */
  predicate EmptyChangeset(form: UserForm) {
    form.email.None? && form.username.None? && form.password.None?
  }

  /** `POST /user/update`: patch every row whose email is `oldEmail`. An empty
      changeset is rejected by the query builder before reaching the store. */
  function UpdateUser(db: Db, form: UserForm, b: Backend): (r: Reply<()>)
    ensures r.result.Err? ==> r.db == db
    ensures !b.poolAvailable ==> r.result == Err(DbConnectionFailed)
    ensures r.result.Ok? <==> b.poolAvailable && !EmptyChangeset(form) && !b.Fails(0)
    ensures b.poolAvailable && r.result.Err? ==> r.result == Err(UpdateUserFailed)
    ensures r.result.Ok? ==>
              && r.db == db.(users := r.db.users)
              && |r.db.users| == |db.users|
              && forall i :: 0 <= i < |db.users| ==>
                   var (u, v) := (db.users[i], r.db.users[i]);
                   && v.id == u.id && v.createdAt == u.createdAt && v.name == u.name
                   && v.profilePicture == u.profilePicture && v.companyPositionId == u.companyPositionId
                   && v.role == u.role
                   && (u.email == form.oldEmail ==>
                         && v.email == (if form.email.Some? then form.email.value else u.email)
                         && v.username == (if form.username.Some? then form.username.value else u.username)
                         && v.password == (if form.password.Some? then form.password.value else u.password))
                   && (u.email != form.oldEmail ==> v == u)
  {
    if !b.poolAvailable then Reply(Err(DbConnectionFailed), db)
    else if EmptyChangeset(form) || b.Fails(0) then Reply(Err(UpdateUserFailed), db)
    else Reply(Ok(()), db.(users := UpdateWhere(db.users, WithEmail(form.oldEmail), Patch(form))))
  }

  /** An update that matches no row still succeeds and changes nothing. */
  lemma UpdateUserNoMatch(db: Db, form: UserForm, b: Backend)
    requires b.poolAvailable && !EmptyChangeset(form) && !b.Fails(0)
    requires forall u :: u in db.users ==> u.email != form.oldEmail
    ensures UpdateUser(db, form, b) == Reply(Ok(()), db)
  {
    var r := UpdateUser(db, form, b);
    assert r.db.users == db.users;
  }

  /** Running the same update twice leaves what running it once left. */
  lemma UpdateUserIdempotent(db: Db, form: UserForm, b: Backend)
    ensures var once := UpdateUser(db, form, b).db;
            UpdateUser(once, form, b).db == once
  {
    var once := UpdateUser(db, form, b).db;
    var twice := UpdateUser(once, form, b).db;
    if b.poolAvailable && !b.Fails(0) && !EmptyChangeset(form) {
      assert |twice.users| == |once.users|;
      forall i | 0 <= i < |once.users| ensures twice.users[i] == once.users[i] {
        var u := db.users[i];
        if u.email == form.oldEmail && once.users[i].email == form.oldEmail {
          assert form.email.None? || form.email.value == form.oldEmail;
        }
      }
    }
  }
}
