/** End-to-end runs across several handlers. */
module Scenarios {
  import opened Query
  import opened Schema
  import opened Responses
  import opened Pool
  import Users
  import Follows
  import Companies
  import Invariants

  /** Nobody follows `id` after a request that only removes follow rows, if
      nobody did before. */
  lemma NoFollowersInSubset(before: Db, after: Db, id: int)
    requires Users.FollowerCount(before, id) == 0
    requires forall f :: f in after.follows ==> f in before.follows
    ensures Users.FollowerCount(after, id) == 0
  {
    FilterEmpty(before.follows, Users.FollowsUser(id));
    FilterNone(after.follows, Users.FollowsUser(id));
  }

  /** A lookup depends on the follows table only through the count. */
  lemma GetUserSameUsers(db: Db, db': Db, q: Users.UserQuery, b: Backend)
    requires db'.users == db.users
    requires Users.GetUser(db, q, b).Ok?
    ensures var u := Users.GetUser(db, q, b).value.user;
            Users.GetUser(db', q, b) == Ok(Users.UserView(u, Users.FollowerCount(db', u.id)))
  {
  }

  /** Two registrations that collide with nothing both succeed; the second
      user is found by username with no followers, under an id that differs
      from the first user's. */
  lemma RegisterTwo(db: Db, a: Users.Registration, bReg: Users.Registration, b: Backend)
    requires Valid(db) && b.Healthy()
    requires a.email != bReg.email && a.username != bReg.username
    requires forall u :: u in db.users ==>
               && u.email != a.email && u.username != a.username
               && u.email != bReg.email && u.username != bReg.username
    ensures var r1 := Users.Register(db, a, b);
            var r2 := Users.Register(r1.db, bReg, b);
            var ua := r1.db.users[|db.users|];
            var ub := r2.db.users[|r1.db.users|];
            && r1.result.Ok? && r2.result.Ok?
            && ua.id != ub.id && ua.id in UserIds(r2.db) && ub.id in UserIds(r2.db)
            && Users.GetUser(r2.db, Users.UserQuery(None, Some(bReg.username)), b) == Ok(Users.UserView(ub, 0))
  {
    var r1 := Users.Register(db, a, b);
    var db1 := r1.db;
    var ua := db1.users[|db.users|];
    assert db1.users == db.users + [ua];
    Invariants.RegisterKeepsValid(db, a, b);
    KeysAppend(db.users, ua, UserKey);
    var r2 := Users.Register(db1, bReg, b);
    assert r2.result.Ok?;
    var ub := r2.db.users[|db1.users|];
    assert r2.db.users == db1.users + [ub];
    KeysAppend(db1.users, ub, UserKey);
    Users.RegisterThenGetUser(db1, bReg, b, b);
  }

  /** Following a user with no followers gives them one. */
  lemma FollowGivesOne(db: Db, form: Follows.FollowForm, q: Users.UserQuery, u: User, b: Backend)
    requires Follows.FollowUser(db, form, b).result.Ok?
    requires u.id == form.followedUserId
    requires Users.GetUser(db, q, b) == Ok(Users.UserView(u, 0))
    ensures Users.GetUser(Follows.FollowUser(db, form, b).db, q, b) == Ok(Users.UserView(u, 1))
  {
    var db' := Follows.FollowUser(db, form, b).db;
    Follows.FollowCounts(db, form, b, u.id);
    assert db'.users == db.users;
    assert Users.FollowerCount(db', u.id) == 1;
    GetUserSameUsers(db, db', q, b);
  }

  /** Unfollowing straight after that follow takes the follower away again. */
  lemma UnfollowTakesItBack(db: Db, form: Follows.FollowForm, q: Users.UserQuery, u: User, b: Backend)
    requires Follows.FollowUser(db, form, b).result.Ok?
    requires Users.GetUser(db, q, b) == Ok(Users.UserView(u, 0))
    ensures var r4 := Follows.UnfollowUser(Follows.FollowUser(db, form, b).db, form, b);
            r4.result.Ok? && Users.GetUser(r4.db, q, b) == Ok(Users.UserView(u, 0))
  {
    Follows.UnfollowUndoesFollow(db, form, b);
    var r4 := Follows.UnfollowUser(db, form, b);
    NoFollowersInSubset(db, r4.db, u.id);
    GetUserSameUsers(db, r4.db, q, b);
  }

  /** Following a user with no followers gives them one; unfollowing takes it
      away again. */
  lemma FollowCycle(db: Db, form: Follows.FollowForm, q: Users.UserQuery, u: User, b: Backend)
    requires b.Healthy()
    requires form.userId != form.followedUserId
    requires form.userId in UserIds(db) && form.followedUserId in UserIds(db)
    requires u.id == form.followedUserId
    requires Users.GetUser(db, q, b) == Ok(Users.UserView(u, 0))
    ensures var r3 := Follows.FollowUser(db, form, b);
            var r4 := Follows.UnfollowUser(r3.db, form, b);
            && r3.result.Ok? && r4.result.Ok?
            && Users.GetUser(r3.db, q, b) == Ok(Users.UserView(u, 1))
            && Users.GetUser(r4.db, q, b) == Ok(Users.UserView(u, 0))
  {
    FollowGivesOne(db, form, q, u, b);
    UnfollowTakesItBack(db, form, q, u, b);
  }

  /** Register A and B, A follows B: B's lookup reports one follower; A
      unfollows B: it reports none. */
  lemma FollowUnfollowScenario(db: Db, a: Users.Registration, bReg: Users.Registration, b: Backend)
    requires Valid(db) && b.Healthy()
    requires a.email != bReg.email && a.username != bReg.username
    requires forall u :: u in db.users ==>
               && u.email != a.email && u.username != a.username
               && u.email != bReg.email && u.username != bReg.username
    ensures var r1 := Users.Register(db, a, b);
            var r2 := Users.Register(r1.db, bReg, b);
            var ua := r1.db.users[|db.users|];
            var ub := r2.db.users[|r1.db.users|];
            var form := Follows.FollowForm(ua.id, ub.id);
            var r3 := Follows.FollowUser(r2.db, form, b);
            var r4 := Follows.UnfollowUser(r3.db, form, b);
            var byName := Users.UserQuery(None, Some(bReg.username));
            && r1.result.Ok? && r2.result.Ok? && r3.result.Ok? && r4.result.Ok?
            && Users.GetUser(r3.db, byName, b) == Ok(Users.UserView(ub, 1))
            && Users.GetUser(r4.db, byName, b) == Ok(Users.UserView(ub, 0))
  {
    RegisterTwo(db, a, bReg, b);
    var r1 := Users.Register(db, a, b);
    var r2 := Users.Register(r1.db, bReg, b);
    var ua := r1.db.users[|db.users|];
    var ub := r2.db.users[|r1.db.users|];
    FollowCycle(r2.db, Follows.FollowForm(ua.id, ub.id), Users.UserQuery(None, Some(bReg.username)), ub, b);
  }

  /** A company form without a name is refused and stores nothing; with a
      name, the new company is stored and the listing, which only shows
      companies linked to a position, stays as it was. */
  lemma AddCompanyScenario(db: Db, name: string, b: Backend)
    requires Valid(db) && b.Healthy()
    ensures Companies.AddCompany(db, None, b) == Reply(Err(CompanyNameRequired), db)
    ensures var r := Companies.AddCompany(db, Some(name), b);
            && r.result.Ok?
            && Companies.GetCompany(r.db, None, b) == Companies.GetCompany(db, None, b)
            && Companies.GetCompany(r.db, None, b).Ok?
  {
    Companies.AddCompanyKeepsListing(db, name, b);
  }
}
