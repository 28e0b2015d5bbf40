/** The follow-graph handlers of src/routes/v1/follow.rs: add an edge and
    delete every copy of an edge, both after checking that the two ends are
    different users that exist. */
module Follows {
  import opened Query
  import opened Schema
  import opened Responses
  import opened Pool
  import Users

  /** The JSON body of both endpoints: `userId` follows (or unfollows) `followedUserId`. */
  datatype FollowForm = FollowForm(userId: int, followedUserId: int)

  /** The rows recording that `from` follows `to`. */
  function IsEdge(from: int, to: int): Follow -> bool {
    (f: Follow) => f.followingUserId == from && f.followedUserId == to
  }

  /** How many rows record the edge `from` -> `to`; the table has no
      uniqueness constraint on the pair. */
  function EdgeCount(db: Db, from: int, to: int): nat {
    |Filter(db.follows, IsEdge(from, to))|
  }

  /** The checks both handlers make before writing, in their order: a
      self-edge (before the pool is asked), the pool, the follower's lookup
      (statement 0), then the followed user's lookup (statement 1). */
  function Precheck(db: Db, form: FollowForm, selfError: Error, b: Backend): (r: Result<()>)
    ensures form.userId == form.followedUserId ==> r == Err(selfError)
    ensures form.userId != form.followedUserId && !b.poolAvailable ==> r == Err(DbConnectionFailed)
    ensures (form.userId != form.followedUserId && b.poolAvailable
             && (b.Fails(0) || form.userId !in UserIds(db))) ==> r == Err(UserNotFound)
    ensures r.Ok? <==> && form.userId != form.followedUserId && b.poolAvailable
                       && !b.Fails(0) && form.userId in UserIds(db)
                       && !b.Fails(1) && form.followedUserId in UserIds(db)
    ensures r.Err? && r.error != selfError && r.error != DbConnectionFailed ==> r.error == UserNotFound
  {
    if form.userId == form.followedUserId then Err(selfError)
    else if !b.poolAvailable then Err(DbConnectionFailed)
    else if b.Fails(0) || UserById(db.users, form.userId).None? then Err(UserNotFound)
    else if b.Fails(1) || UserById(db.users, form.followedUserId).None? then Err(UserNotFound)
    else Ok(())
  }

  /** POST /follow: append one edge row; statement 2 is the insert. */
  function FollowUser(db: Db, form: FollowForm, b: Backend): (r: Reply<()>)
    ensures r.result.Err? ==> r.db == db
    ensures Precheck(db, form, UserFollowingSelf, b).Err? ==>
              r.result == Precheck(db, form, UserFollowingSelf, b)
    ensures Precheck(db, form, UserFollowingSelf, b).Ok? && b.Fails(2) ==>
              r.result == Err(FollowUserFailed)
    ensures r.result.Ok? <==> Precheck(db, form, UserFollowingSelf, b).Ok? && !b.Fails(2)
    ensures r.result.Ok? ==>
              && r.db == db.(follows := r.db.follows)
              && |r.db.follows| == |db.follows| + 1
              && r.db.follows[..|db.follows|] == db.follows
              && var f := r.db.follows[|db.follows|];
                 && f.id !in Keys(db.follows, FollowKey)
                 && f.createdAt == b.now
                 && f.followingUserId == form.userId
                 && f.followedUserId == form.followedUserId
  {
    match Precheck(db, form, UserFollowingSelf, b)
    case Err(e) => Reply(Err(e), db)
    case Ok(_) =>
      if b.Fails(2) then Reply(Err(FollowUserFailed), db)
      else
        var f := Follow(NextId(db.follows, FollowKey), b.now, form.userId, form.followedUserId);
        assert (db.follows + [f])[..|db.follows|] == db.follows;
        Reply(Ok(()), db.(follows := db.follows + [f]))
  }

  /** POST /unfollow: delete every row of the edge; success does not depend
      on there having been one. Statement 2 is the delete. */
  function UnfollowUser(db: Db, form: FollowForm, b: Backend): (r: Reply<()>)
    ensures r.result.Err? ==> r.db == db
    ensures Precheck(db, form, UserUnfollowingSelf, b).Err? ==>
              r.result == Precheck(db, form, UserUnfollowingSelf, b)
    ensures Precheck(db, form, UserUnfollowingSelf, b).Ok? && b.Fails(2) ==>
              r.result == Err(UnfollowUserFailed)
    ensures r.result.Ok? <==> Precheck(db, form, UserUnfollowingSelf, b).Ok? && !b.Fails(2)
    ensures r.result.Ok? ==>
              && r.db == db.(follows := r.db.follows)
              && |r.db.follows| <= |db.follows|
              && forall f :: f in r.db.follows <==>
                   f in db.follows && !(f.followingUserId == form.userId && f.followedUserId == form.followedUserId)
  {
    match Precheck(db, form, UserUnfollowingSelf, b)
    case Err(e) => Reply(Err(e), db)
    case Ok(_) =>
      if b.Fails(2) then Reply(Err(UnfollowUserFailed), db)
      else Reply(Ok(()), db.(follows := DeleteWhere(db.follows, IsEdge(form.userId, form.followedUserId))))
  }

  /** A follow raises the followed user's follower count by one and leaves
      every other user's count as it was. */
  lemma FollowCounts(db: Db, form: FollowForm, b: Backend, x: int)
    requires FollowUser(db, form, b).result.Ok?
    ensures var db' := FollowUser(db, form, b).db;
            Users.FollowerCount(db', x) ==
              Users.FollowerCount(db, x) + (if x == form.followedUserId then 1 else 0)
  {
    var db' := FollowUser(db, form, b).db;
    var f := db'.follows[|db.follows|];
    assert db'.follows == db.follows + [f];
    FilterAppend(db.follows, [f], Users.FollowsUser(x));
    FilterCons([f], Users.FollowsUser(x));
    assert [f][1..] == [];
  }

  /** Unfollowing removes every copy of the edge, however many follows created it. */
  lemma UnfollowClearsEdge(db: Db, form: FollowForm, b: Backend)
    requires UnfollowUser(db, form, b).result.Ok?
    ensures EdgeCount(UnfollowUser(db, form, b).db, form.userId, form.followedUserId) == 0
  {
    var db' := UnfollowUser(db, form, b).db;
    FilterNone(db'.follows, IsEdge(form.userId, form.followedUserId));
  }

  /** Following twice and unfollowing once leaves no edge: unfollow is not a
      counted decrement. */
  lemma FollowTwiceUnfollowOnce(db: Db, form: FollowForm, b: Backend)
    requires b.Healthy()
    requires form.userId != form.followedUserId
    requires form.userId in UserIds(db) && form.followedUserId in UserIds(db)
    ensures var db1 := FollowUser(db, form, b).db;
            var db2 := FollowUser(db1, form, b).db;
            var db3 := UnfollowUser(db2, form, b);
            && EdgeCount(db2, form.userId, form.followedUserId) == EdgeCount(db, form.userId, form.followedUserId) + 2
            && db3.result.Ok?
            && EdgeCount(db3.db, form.userId, form.followedUserId) == 0
  {
    var db1 := FollowUser(db, form, b).db;
    var db2 := FollowUser(db1, form, b).db;
    EdgeGrows(db, form, b);
    EdgeGrows(db1, form, b);
    UnfollowClearsEdge(db2, form, b);
  }

  lemma EdgeGrows(db: Db, form: FollowForm, b: Backend)
    requires FollowUser(db, form, b).result.Ok?
    ensures var db' := FollowUser(db, form, b).db;
            && UserIds(db') == UserIds(db)
            && EdgeCount(db', form.userId, form.followedUserId) == EdgeCount(db, form.userId, form.followedUserId) + 1
  {
    var db' := FollowUser(db, form, b).db;
    var f := db'.follows[|db.follows|];
    assert db'.follows == db.follows + [f];
    FilterAppend(db.follows, [f], IsEdge(form.userId, form.followedUserId));
    FilterCons([f], IsEdge(form.userId, form.followedUserId));
    assert [f][1..] == [];
  }

  /** Unfollowing one edge leaves every other edge's rows, the reverse edge
      included, exactly as they were. */
  lemma UnfollowKeepsOtherEdges(db: Db, form: FollowForm, b: Backend, from: int, to: int)
    requires UnfollowUser(db, form, b).result.Ok?
    requires from != form.userId || to != form.followedUserId
    ensures Filter(UnfollowUser(db, form, b).db.follows, IsEdge(from, to)) == Filter(db.follows, IsEdge(from, to))
  {
    FilterFilter(db.follows, Excluding(IsEdge(form.userId, form.followedUserId)), IsEdge(from, to));
  }

  /** Unfollowing leaves the follower count of every user but the unfollowed
      one unchanged. */
  lemma UnfollowKeepsOtherCounts(db: Db, form: FollowForm, b: Backend, x: int)
    requires UnfollowUser(db, form, b).result.Ok?
    requires x != form.followedUserId
    ensures Users.FollowerCount(UnfollowUser(db, form, b).db, x) == Users.FollowerCount(db, x)
  {
    FilterFilter(db.follows, Excluding(IsEdge(form.userId, form.followedUserId)), Users.FollowsUser(x));
  }

  /** Unfollow undoes follow: following and then unfollowing the same edge
      leaves the same table as unfollowing straight away. */
  lemma UnfollowUndoesFollow(db: Db, form: FollowForm, b: Backend)
    requires FollowUser(db, form, b).result.Ok?
    ensures var db1 := FollowUser(db, form, b).db;
            UnfollowUser(db1, form, b) == UnfollowUser(db, form, b)
  {
    var db1 := FollowUser(db, form, b).db;
    var f := db1.follows[|db.follows|];
    assert db1.follows == db.follows + [f];
    assert db1 == db.(follows := db.follows + [f]);
    var p := Excluding(IsEdge(form.userId, form.followedUserId));
    FilterAppend(db.follows, [f], p);
    FilterCons([f], p);
    assert [f][1..] == [];
  }
}
