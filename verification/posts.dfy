/** The post handlers of src/routes/v1/post.rs: the three-way `GET /post`
    (by id, by author's username, or every post joined with its author) and
    `POST /post`. */
module Posts {
  import opened Query
  import opened Schema
  import opened Responses
  import opened Pool
  import Users

  const DefaultLimit := 20
  const DefaultOffset := 0

  /** The query string of `GET /post`. */
  datatype PostQuery = PostQuery(username: Option<string>, id: Option<int>, limit: Option<int>, offset: Option<int>)

  /** A post with its author's username and display name. */
  datatype PostResult = PostResult(post: Post, username: string, name: string)

  function ByAuthor(uid: int): Post -> bool { (p: Post) => p.userId == uid }

  /** Pair every post with the same author fields. */
  function Tag(ps: seq<Post>, username: string, name: string): (r: seq<PostResult>)
    ensures |r| == |ps|
    ensures forall i :: 0 <= i < |ps| ==> r[i] == PostResult(ps[i], username, name)
  {
    seq(|ps|, i requires 0 <= i < |ps| => PostResult(ps[i], username, name))
  }

  /** The join rows one post contributes: one per user whose id is its
      `user_id`, carrying that user's username and name. */
  function AuthorRows(p: Post, us: seq<User>): (r: seq<PostResult>)
    ensures |r| == |Filter(us, KeyIs(UserKey, p.userId))|
    ensures forall e :: e in r ==> e.post == p && WrittenBy(e, us)
  {
    var authors := Filter(us, KeyIs(UserKey, p.userId));
    var r := seq(|authors|, i requires 0 <= i < |authors| => PostResult(p, authors[i].username, authors[i].name));
    assert forall i :: 0 <= i < |authors| ==> authors[i] in authors;
    r
  }

  /** Row `e` carries the username and name of a user whose id is its post's `user_id`. */
  predicate WrittenBy(e: PostResult, us: seq<User>) {
    exists u :: u in us && u.id == e.post.userId && e.username == u.username && e.name == u.name
  }

  /** `posts.inner_join(users).select((posts::all_columns(), username, name))`,
      post by post in table order: every row holds one of the posts and the
      name fields of its author. */
  function JoinPosts(ps: seq<Post>, us: seq<User>): (r: seq<PostResult>)
    ensures forall e :: e in r ==> e.post in ps && WrittenBy(e, us)
  {
    if |ps| == 0 then []
    else
      assert forall q :: q in ps[1..] ==> q in ps;
      AuthorRows(ps[0], us) + JoinPosts(ps[1..], us)
  }

  /** `GET /post?id=..`: the posts with that id, each paired with the author of
      the first of them. */
  function PostById(db: Db, id: int, b: Backend): (r: Result<seq<PostResult>>)
    ensures r == Err(PostNotFound) <==> id !in Keys(db.posts, PostKey)
    ensures r.Err? ==> r == Err(PostNotFound) || r == Err(UserNotFound)
    ensures var found := Filter(db.posts, KeyIs(PostKey, id));
            found != [] ==> (r == Err(UserNotFound) <==> b.Fails(1) || found[0].userId !in UserIds(db))
  {
    var results := Filter(db.posts, KeyIs(PostKey, id));
    FilterByKey(db.posts, PostKey, id);
    if results == [] then Err(PostNotFound)
    else
      var author := UserById(db.users, results[0].userId);
      if b.Fails(1) || author.None? then Err(UserNotFound)
      else Ok(Tag(results, author.value.username, author.value.name))
  }

  /** A successful id lookup returns posts carrying that id, each paired with
      the username and name of the first one's author. */
  lemma PostByIdFound(db: Db, id: int, b: Backend)
    requires PostById(db, id, b).Ok?
    ensures var r := PostById(db, id, b).value;
            && r != []
            && var author := UserById(db.users, r[0].post.userId);
               && author.Some?
               && forall i :: 0 <= i < |r| ==>
                    && r[i].post in db.posts && r[i].post.id == id
                    && r[i].username == author.value.username && r[i].name == author.value.name
  {
    var results := Filter(db.posts, KeyIs(PostKey, id));
    var r := PostById(db, id, b).value;
    var author := UserById(db.users, results[0].userId);
    assert r == Tag(results, author.value.username, author.value.name);
    forall i | 0 <= i < |r|
      ensures r[i].post in db.posts && r[i].post.id == id
    {
      assert results[i] in results;
      assert KeyIs(PostKey, id)(results[i]);
    }
  }

  /** `GET /post?username=..`: the `limit`/`offset` window of that user's posts,
      each tagged with the queried username and the user's name. */
  function PostsByUsername(db: Db, n: string, limit: int, offset: int, b: Backend): (r: Result<seq<PostResult>>)
    ensures r == Err(UserNotFound) <==> b.Fails(0) || forall u :: u in db.users ==> u.username != n
    ensures r == Err(PostsNotFound) <==>
              && !b.Fails(0) && (exists u :: u in db.users && u.username == n)
              && (b.Fails(1) || limit < 0 || offset < 0)
    ensures r.Err? ==> r == Err(UserNotFound) || r == Err(PostsNotFound)
    ensures r.Ok? ==>
              && First(db.users, Users.WithUsername(n)).Some?
              && var u := db.users[First(db.users, Users.WithUsername(n)).value];
                 var mine := Filter(db.posts, ByAuthor(u.id));
                 && u.username == n
                 && (offset >= |mine| ==> r.value == [])
                 && (offset < |mine| ==>
                       |r.value| == if limit < |mine| - offset then limit else |mine| - offset)
                 && forall i :: 0 <= i < |r.value| ==>
                      offset + i < |mine| && r.value[i] == PostResult(mine[offset + i], n, u.name)
  {
    var user := First(db.users, Users.WithUsername(n));
    if b.Fails(0) || user.None? then Err(UserNotFound)
    else if b.Fails(1) || limit < 0 || offset < 0 then
      assert db.users[user.value] in db.users;
      Err(PostsNotFound)
    else
      var u := db.users[user.value];
      Ok(Tag(Window(Filter(db.posts, ByAuthor(u.id)), limit, offset), n, u.name))
  }

  /** `GET /post` with neither id nor username: the `limit`/`offset` window of
      the posts-users join; an empty window is reported as `posts_not_found`. */
  function AllPosts(db: Db, limit: int, offset: int, b: Backend): (r: Result<seq<PostResult>>)
    ensures r == Err(InvalidQuery) <==> b.Fails(0) || limit < 0 || offset < 0
    ensures r == Err(PostsNotFound) <==>
              && !b.Fails(0) && limit >= 0 && offset >= 0
              && (offset >= |JoinPosts(db.posts, db.users)| || limit == 0)
    ensures r.Err? ==> r == Err(InvalidQuery) || r == Err(PostsNotFound)
    ensures r.Ok? ==>
              var joined := JoinPosts(db.posts, db.users);
              && offset < |joined|
              && |r.value| == (if limit < |joined| - offset then limit else |joined| - offset)
              && forall i :: 0 <= i < |r.value| ==> r.value[i] == joined[offset + i]
  {
    if b.Fails(0) || limit < 0 || offset < 0 then Err(InvalidQuery)
    else
      var rows := Window(JoinPosts(db.posts, db.users), limit, offset);
      if rows == [] then Err(PostsNotFound) else Ok(rows)
  }

  /** `GET /post`: an id wins over a username, which wins over listing
      everything; `limit` defaults to 20 and `offset` to 0. */
  function GetPosts(db: Db, q: PostQuery, b: Backend): (r: Result<seq<PostResult>>)
    ensures !b.poolAvailable ==> r == Err(DbConnectionFailed)
    ensures b.poolAvailable && q.id.Some? ==> r == PostById(db, q.id.value, b)
    ensures b.poolAvailable && q.id.Some? ==>
              (r == Err(PostNotFound) <==> q.id.value !in Keys(db.posts, PostKey))
    ensures b.poolAvailable && q.id.None? && q.username.Some? ==>
              (r == Err(UserNotFound) <==> b.Fails(0) || forall u :: u in db.users ==> u.username != q.username.value)
    ensures b.poolAvailable && q.id.None? && q.username.Some? ==>
              r == PostsByUsername(db, q.username.value, q.limit.GetOr(DefaultLimit), q.offset.GetOr(DefaultOffset), b)
    ensures b.poolAvailable && q.id.None? && q.username.None? ==>
              r == AllPosts(db, q.limit.GetOr(DefaultLimit), q.offset.GetOr(DefaultOffset), b)
    ensures b.poolAvailable && q.id.None? && q.username.None? && !b.Fails(0) && q.limit.None? && q.offset.None? ==>
              (r == Err(PostsNotFound) <==> JoinPosts(db.posts, db.users) == [])
  {
    if !b.poolAvailable then Err(DbConnectionFailed)
    else
      var limit := q.limit.GetOr(DefaultLimit);
      var offset := q.offset.GetOr(DefaultOffset);
      if q.id.Some? then PostById(db, q.id.value, b)
      else if q.username.Some? then PostsByUsername(db, q.username.value, limit, offset, b)
      else AllPosts(db, limit, offset, b)
  }

  /** With an id present, the username, limit and offset play no part. */
  lemma IdBeatsUsername(db: Db, q: PostQuery, b: Backend)
    requires q.id.Some?
    ensures GetPosts(db, q, b) == GetPosts(db, PostQuery(None, q.id, None, None), b)
  {
  }

  /** Without an id, a username selects the per-user listing whatever else is given. */
  lemma UsernameBeatsAll(db: Db, q: PostQuery, b: Backend)
    requires q.id.None? && q.username.Some? && b.poolAvailable
    ensures GetPosts(db, q, b) == PostsByUsername(db, q.username.value, q.limit.GetOr(20), q.offset.GetOr(0), b)
  {
  }

  /** Leaving out `limit` and `offset` is asking for the first 20 rows. */
  lemma WindowDefaults(db: Db, id: Option<int>, n: Option<string>, b: Backend)
    ensures GetPosts(db, PostQuery(n, id, None, None), b) == GetPosts(db, PostQuery(n, id, Some(20), Some(0)), b)
  {
  }

  /** Join row `e` is post `p` paired with the name fields of its author. */
  predicate ShowsAuthor(e: PostResult, p: Post, us: seq<User>) {
    var author := UserById(us, p.userId);
    author.Some? && e == PostResult(p, author.value.username, author.value.name)
  }

  /** Row i of the join shows post i with its author, for every i. */
  predicate ShowsAuthors(rows: seq<PostResult>, ps: seq<Post>, us: seq<User>) {
    |rows| == |ps| && forall i :: 0 <= i < |ps| ==> ShowsAuthor(rows[i], ps[i], us)
  }

  lemma ShowsAuthorsCons(e: PostResult, p: Post, rows: seq<PostResult>, ps: seq<Post>, us: seq<User>)
    requires ShowsAuthor(e, p, us) && ShowsAuthors(rows, ps, us)
    ensures ShowsAuthors([e] + rows, [p] + ps, us)
  {
    forall i | 1 <= i < |ps| + 1 ensures ShowsAuthor(([e] + rows)[i], ([p] + ps)[i], us) {
      assert ([e] + rows)[i] == rows[i - 1];
    }
  }

  /** Under a primary key a post whose author exists joins exactly once. */
  lemma AuthorRowsSingle(p: Post, us: seq<User>)
    requires UniqueKeys(us, UserKey)
    requires p.userId in Keys(us, UserKey)
    ensures |AuthorRows(p, us)| == 1 && ShowsAuthor(AuthorRows(p, us)[0], p, us)
  {
    UniqueKeyFilter(us, UserKey, p.userId);
    FilterHead(us, KeyIs(UserKey, p.userId));
    FirstKey(us, UserKey, p.userId);
  }

  /** With unique user ids and every post's author present, the join is the
      post table itself, each post paired with its author. */
  lemma {:induction false} JoinPostsComplete(ps: seq<Post>, us: seq<User>)
    requires UniqueKeys(us, UserKey)
    requires forall p :: p in ps ==> p.userId in Keys(us, UserKey)
    ensures ShowsAuthors(JoinPosts(ps, us), ps, us)
  {
    if |ps| > 0 {
      assert ps[0] in ps;
      AuthorRowsSingle(ps[0], us);
      JoinPostsComplete(ps[1..], us);
      var head := AuthorRows(ps[0], us);
      assert head == [head[0]];
      ShowsAuthorsCons(head[0], ps[0], JoinPosts(ps[1..], us), ps[1..], us);
      assert [ps[0]] + ps[1..] == ps;
    }
  }

  /** Under the invariant, `GET /post` without id or username reports
      `posts_not_found` exactly when no post is stored. */
  lemma EmptyListingIffNoPosts(db: Db, b: Backend)
    requires Valid(db)
    requires b.Healthy()
    ensures GetPosts(db, PostQuery(None, None, None, None), b) == Err(PostsNotFound) <==> db.posts == []
  {
    JoinPostsComplete(db.posts, db.users);
  }

  /** Under the invariant, a stored post is always found with its author: the
      defensive `user_not_found` of the id lookup arises only from a store fault. */
  lemma PostByIdFindsAuthor(db: Db, id: int, b: Backend)
    requires Valid(db)
    requires !b.Fails(1)
    requires id in Keys(db.posts, PostKey)
    ensures PostById(db, id, b).Ok?
    ensures |PostById(db, id, b).value| == 1
  {
    var results := Filter(db.posts, KeyIs(PostKey, id));
    UniqueKeyFilter(db.posts, PostKey, id);
    assert results[0] in db.posts;
  }

  /** The form of `POST /post`. */
  datatype PostForm = PostForm(userId: Option<int>, body: Option<string>)

  /** `POST /post`: validate `user_id` then `body`, check the author exists,
      then insert exactly one post. */
  function AddPost(db: Db, form: PostForm, b: Backend): (r: Reply<()>)
    ensures r.result.Err? ==> r.db == db
    ensures !b.poolAvailable ==> r.result == Err(DbConnectionFailed)
    ensures b.poolAvailable && form.userId.None? ==> r.result == Err(UserIdRequired)
    ensures b.poolAvailable && form.userId.Some? && form.body.None? ==> r.result == Err(PostBodyRequired)
    ensures b.poolAvailable && form.userId.Some? && form.body.Some? ==>
              (r.result == Err(UserNotFound) <==> b.Fails(0) || form.userId.value !in UserIds(db))
    ensures (&& b.poolAvailable && form.userId.Some? && form.body.Some?
             && !b.Fails(0) && form.userId.value in UserIds(db) && b.Fails(1)) ==> r.result == Err(AddPostFailed)
    ensures r.result.Ok? <==>
              && b.poolAvailable && form.userId.Some? && form.body.Some?
              && !b.Fails(0) && !b.Fails(1) && form.userId.value in UserIds(db)
    ensures r.result.Ok? ==>
              && r.db == db.(posts := r.db.posts)
              && |r.db.posts| == |db.posts| + 1
              && r.db.posts[..|db.posts|] == db.posts
              && var p := r.db.posts[|db.posts|];
                 && p.id !in Keys(db.posts, PostKey)
                 && p.createdAt == b.now
                 && p.userId == form.userId.value
                 && p.body == form.body.value
  {
    if !b.poolAvailable then Reply(Err(DbConnectionFailed), db)
    else if form.userId.None? then Reply(Err(UserIdRequired), db)
    else if form.body.None? then Reply(Err(PostBodyRequired), db)
    else
      var user := UserById(db.users, form.userId.value);
      if b.Fails(0) || user.None? then Reply(Err(UserNotFound), db)
      else if b.Fails(1) then Reply(Err(AddPostFailed), db)
      else
        var p := Post(NextId(db.posts, PostKey), b.now, form.body.value, user.value.id);
        Reply(Ok(()), db.(posts := db.posts + [p]))
  }
}
