/** The six stored tables and the shape of their rows (src/models.rs, src/schema.rs).
    Every row carries a store-assigned `id` and `created_at`; the model keeps both
    as plain values once a row is stored. */
module Schema {
  import opened Query

  /** A creation time as the store assigns it; the model only copies it around. */
  datatype Timestamp = Timestamp(ticks: int)

  datatype User = User(
    id: int,
    createdAt: Timestamp,
    name: string,
    email: string,
    username: string,
    profilePicture: Option<string>,
    password: string,
    companyPositionId: Option<int>,
    role: int)

  datatype Post = Post(id: int, createdAt: Timestamp, body: string, userId: int)

  /** One directed edge: `followingUserId` follows `followedUserId`. */
  datatype Follow = Follow(id: int, createdAt: Timestamp, followingUserId: int, followedUserId: int)

  /** The row shape that companies and positions share. */
  datatype Named = Named(id: int, createdAt: Timestamp, name: string)

  type Company = Named
  type Position = Named

  datatype CompanyPosition = CompanyPosition(id: int, createdAt: Timestamp, positionId: int, companyId: int)

  datatype Db = Db(
    users: seq<User>,
    posts: seq<Post>,
    follows: seq<Follow>,
    companies: seq<Company>,
    positions: seq<Position>,
    companyPositions: seq<CompanyPosition>)

  function UserKey(u: User): int { u.id }
  function PostKey(p: Post): int { p.id }
  function FollowKey(f: Follow): int { f.id }
  function NamedKey(n: Named): int { n.id }
  function CompanyPositionKey(cp: CompanyPosition): int { cp.id }

  function UserIds(db: Db): set<int> { Keys(db.users, UserKey) }

  /** `users.find(id).first()`: the user with that id, when there is one. */
  function UserById(us: seq<User>, id: int): (r: Option<User>)
    ensures r.Some? <==> id in Keys(us, UserKey)
    ensures r.Some? ==> r.value in us && r.value.id == id
  {
    FirstKey(us, UserKey, id);
    var r := Find(us, KeyIs(UserKey, id));
    assert r.Some? ==> UserKey(r.value) == id;
    r
  }

  /** `table.find(id).first()` on a company or position table. */
  function NamedById(rows: seq<Named>, id: int): (r: Option<Named>)
    ensures r.Some? <==> id in Keys(rows, NamedKey)
    ensures r.Some? ==> r.value in rows && r.value.id == id
  {
    FirstKey(rows, NamedKey, id);
    var r := Find(rows, KeyIs(NamedKey, id));
    assert r.Some? ==> NamedKey(r.value) == id;
    r
  }

  /** Every table's primary key is unique. */
  ghost predicate KeysUnique(db: Db) {
    && UniqueKeys(db.users, UserKey)
    && UniqueKeys(db.posts, PostKey)
    && UniqueKeys(db.follows, FollowKey)
    && UniqueKeys(db.companies, NamedKey)
    && UniqueKeys(db.positions, NamedKey)
    && UniqueKeys(db.companyPositions, CompanyPositionKey)
  }

  /** Every foreign key names an existing row (the `joinable!` relations, and
      both ends of a follow edge), and nobody follows themselves. */
  ghost predicate ReferencesResolve(db: Db) {
    && (forall p :: p in db.posts ==> p.userId in UserIds(db))
    && (forall f :: f in db.follows ==>
          && f.followingUserId in UserIds(db)
          && f.followedUserId in UserIds(db)
          && f.followingUserId != f.followedUserId)
    && (forall cp :: cp in db.companyPositions ==>
          && cp.companyId in Keys(db.companies, NamedKey)
          && cp.positionId in Keys(db.positions, NamedKey))
    && (forall u :: u in db.users && u.companyPositionId.Some? ==>
          u.companyPositionId.value in Keys(db.companyPositions, CompanyPositionKey))
  }

  /** The invariant every handler preserves. */
  ghost predicate Valid(db: Db) {
    KeysUnique(db) && ReferencesResolve(db)
  }
}
