# be-project-rust handlers, modelled in Dafny

be-project-rust is a small social/job-board backend: users register and look
each other up, write posts, follow one another, and companies and positions are
kept in name tables joined by a `company_position` link table. Every HTTP
handler of its `v1` routes except `add_dummy_user` is here a pure function
from a database state, a decoded request and a `Backend` to a result and the
next database state:

- `Query` holds the query-builder fragment the handlers use, over tables held as
  sequences: `filter` + `first`, `filter` + `load`, `limit`/`offset`,
  `update … set`, delete by filter and primary-key assignment. It also holds
  the lemmas about them.
- `Schema` defines the six tables and their rows. It also defines `Valid`, the
  invariant every handler keeps: unique primary keys, resolved foreign keys,
  and no self-follow.
- `Responses` holds each error as a (status, error_code) pair, plus `Reply` (a
  result with the next database).
- `Pool.Backend` stands for everything outside the process.
  - `poolAvailable` says whether a connection can be checked out.
  - `failing` lists the store statements of a request that fail. Statement k is
    the k-th store statement the handler issues.
  - `now` is the creation time the store writes.
- `Users`, `Posts`, `Companies`, `Positions` and `Follows` model the handlers of
  `user.rs`, `post.rs`, `company.rs`, `position.rs` and `follow.rs`.
- `Directory` is the generic repository that companies and positions share. It
  is parameterised by a `Kind` that picks the table and the error codes.
- `Invariants` proves that every writing handler keeps `Valid`.
- `Scenarios` chains several handlers end to end.

Fresh ids are one more than the largest id in the table, and at least 1.
Contracts only promise that the id is fresh.

## Model

| member | source | states |
|---|---|---|
| Users.GetUser | src/routes/v1/user.rs:26-78 | Pool failure gives `db_connection_failed`; with neither username nor email, `invalid_query`; `user_not_found` exactly when no row matches the query; whenever some row matches, success, with the first matching row in table order, with `follow_count` = number of follow rows whose `followed_user_id` is that user's id |
| Users.UsernameBeatsEmail | src/routes/v1/user.rs:43-46 | A supplied username decides the lookup; the email is ignored whatever it is |
| Users.NoFollowersOfUnknownUser | src/routes/v1/user.rs:66-69 | In a valid database an id that names no user has follower count 0 |
| Users.FollowerCount | src/routes/v1/user.rs:66-69 | The follower count is at most the number of follow rows, and is 0 exactly when no follow row names the user as the followed one |
| Users.Register | src/routes/v1/user.rs:114-184 | A failed duplicate-check statement gives `check_user_failed`; a failed insert with no colliding row gives `add_user_failed`; success exactly when the pool, the duplicate check and the insert succeed and no row shares the email or the username; on success exactly one row is appended, with a fresh id, the store's time, the given email/username/password and default name, picture, company position and role, and the echoed user equals that row's fields; every error leaves the database unchanged |
| Users.RegisterDuplicateKind | src/routes/v1/user.rs:133-153 | `duplicate_email` exactly when the first row sharing email or username has the email; `duplicate_username` exactly when that row has the username but not the email |
| Users.EarlierUsernameRowWins | src/routes/v1/user.rs:133-146 | A row holding the username stored before a row holding the email makes registration report `duplicate_username`, since only the first colliding row is inspected |
| Users.RegisterThenGetUser | src/routes/v1/user.rs:164-177 | After a successful registration, looking up by the username or by the email returns the inserted row, with the submitted fields unchanged and follower count 0 |
| Users.UpdateUser | src/routes/v1/user.rs:202-244 | Every row whose email is `old_email` gets exactly the supplied fields replaced, every other field and row is kept, other tables are untouched; an empty changeset or a failed statement is `update_user_failed` with no change |
| Users.Patch | src/routes/v1/user.rs:195-201 | The `UserUpdate` changeset sets each supplied field of email, username and password, keeps every other column and every absent field, and applying it twice equals applying it once |
| Users.UpdateUserNoMatch | src/routes/v1/user.rs:232-237 | An update whose `old_email` matches no row reports success and changes nothing |
| Users.UpdateUserIdempotent | src/routes/v1/user.rs:232-236 | On any backend, applying the same update twice leaves the same database as applying it once |
| Posts.PostById | src/routes/v1/post.rs:52-87 | `post_not_found` exactly when no post has the id; otherwise `user_not_found` exactly when the author lookup fails or the first post's author is missing |
| Posts.PostByIdFound | src/routes/v1/post.rs:75-83 | A successful id lookup returns stored posts with that id, each paired with the username and name of the author of the first one |
| Posts.PostByIdFindsAuthor | src/routes/v1/post.rs:65-74 | In a valid database a stored post is always found, as exactly one entry; `user_not_found` there comes only from a store fault |
| Posts.PostsByUsername | src/routes/v1/post.rs:88-125 | `user_not_found` exactly when the user lookup fails or no user has the username; `posts_not_found` exactly when the posts load fails; otherwise the offset/limit window of that user's posts in table order, each tagged with the queried username and the user's name, possibly empty |
| Posts.AllPosts | src/routes/v1/post.rs:126-160 | `invalid_query` exactly when the joined load fails; `posts_not_found` exactly when the offset/limit window of the posts-users join is empty; otherwise that window |
| Posts.GetPosts | src/routes/v1/post.rs:33-161 | Pool failure first; then an id gives exactly the by-id reply, else a username gives exactly the per-user listing, else the reply is exactly the full listing, with the client's `limit`/`offset` defaulting to 20 and 0; plus each branch's not-found condition |
| Posts.IdBeatsUsername | src/routes/v1/post.rs:52-88 | With an id present, username, limit and offset have no effect |
| Posts.UsernameBeatsAll | src/routes/v1/post.rs:88-126 | Without an id, a username selects the per-user listing with limit 20 and offset 0 by default |
| Posts.WindowDefaults | src/routes/v1/post.rs:50-51 | Omitting limit and offset is the same as asking for limit 20 and offset 0 |
| Posts.AuthorRows | src/routes/v1/post.rs:128-133 | One post contributes one join row per user whose id is its `user_id`, each carrying that post and that user's username and name |
| Posts.JoinPosts | src/routes/v1/post.rs:128-133 | Every row of the posts-users join carries one of the posts and the username and name of a user whose id is the post's `user_id` |
| Posts.JoinPostsComplete | src/routes/v1/post.rs:128-133 | With unique user ids and every author present, the join has one row per post, in post order, paired with its author |
| Posts.EmptyListingIffNoPosts | src/routes/v1/post.rs:143-149 | In a valid database the default listing reports `posts_not_found` exactly when no post is stored |
| Posts.AddPost | src/routes/v1/post.rs:169-233 | `user_id_required` is checked before `post_body_required`; `user_not_found` exactly when the author lookup fails or the user is missing; a failed insert for an existing user gives `add_post_failed`; on success exactly one post is appended with a fresh id, the store's time, that user id and body; every error leaves the database unchanged |
| Query.Window | src/routes/v1/post.rs:101-105 | `limit`/`offset`: the result is the `limit` rows from position `offset` on, fewer at the end, none past the end |
| Query.DeleteWhere | src/routes/v1/follow.rs:144-149 | `delete(filter)`: no copy of a row that passes the filter remains, every other row remains exactly as many times as it was stored, and none is added |
| Query.NextId | src/models.rs:12-21 | The id the store assigns an inserted row is positive and not already in the table |
| Query.UniqueKeyFilter | src/schema.rs:3-9 | Under a primary key a load by one key value yields exactly one row when the key is present and none otherwise |
| Directory.Lookup | src/routes/v1/company.rs:51-64 | The point lookup fails, with the kind's not-found code, exactly when the statement fails or no row has the id; otherwise it returns a stored row with that id |
| Directory.LookupUnique | src/routes/v1/company.rs:51-57 | Under a primary key the lookup returns the stored row with that id as it is stored |
| Directory.Add | src/routes/v1/company.rs:98-139 | Pool, then name required, then insert; on success exactly one row is appended with a fresh id, the store's time and the name, and no other table changes |
| Directory.AddThenLookup | src/routes/v1/company.rs:125-132 | An inserted row is found under the id the store gave it, with the given name |
| Directory.Update | src/routes/v1/company.rs:147-195 | Id is required before name; on success only `name` changes and only on the row with that id, with id and `created_at` kept; success does not depend on a row having the id |
| Directory.UpdateThenLookup | src/routes/v1/company.rs:184-188 | After a rename, the lookup returns the row with the new name and its old id and `created_at` |
| Directory.UpdateMissingId | src/routes/v1/company.rs:184-188 | A rename of an id no row has reports success and leaves the database as it was |
| Companies.GetCompany | src/routes/v1/company.rs:29-91 | With an id: `company_not_found` exactly when the lookup fails or the id is absent, else that company; without: `invalid_query` exactly when the join load fails, else the listing, which may be empty and whose every entry carries a link's id and the names of a company and a position at that link's two ends |
| Companies.ListingExact | src/routes/v1/company.rs:66-79 | Under primary keys, the listing has exactly one entry per link whose company and position both exist, in link order, each showing the link id, the company's name and the position's name |
| Companies.GetCompanyListingExact | src/routes/v1/company.rs:65-86 | Under primary keys and a working connection, `GET /company` without an id succeeds with a listing that has exactly one entry per link whose two ends exist, in link order, with the link id and both names |
| Companies.Pairs | src/routes/v1/company.rs:66-70 | One link with m matching companies and n matching positions gives m·n entries, each with the link id, a company's name and a position's name |
| Companies.LinkRows | src/routes/v1/company.rs:66-70 | The entries one link contributes number (companies with its company id) × (positions with its position id), and each carries the link id and the names of such a company and such a position |
| Companies.Join | src/routes/v1/company.rs:66-70 | Every entry of the three-way inner join comes from some link: its id, and the names of a company and a position with that link's ids |
| Companies.AddCompany | src/routes/v1/company.rs:98-139 | `company_name_required` without a name and no change; otherwise exactly one company appended with a fresh id, the store's time and that name |
| Companies.UpdateCompany | src/routes/v1/company.rs:147-195 | `company_id_required` before `company_name_required`; on success only the name of the row with that id changes |
| Companies.AddCompanyKeepsListing | src/routes/v1/company.rs:125-130 | In a valid database adding a company leaves the listing unchanged, since no link points at it |
| Companies.GetCompanyReturnsRow | src/routes/v1/company.rs:50-57 | Under a primary key, asking for a stored company's id returns that row unchanged |
| Companies.AddThenGetCompany | src/routes/v1/company.rs:125-132 | A company just added is found under the id the store gave it |
| Companies.UpdateThenGetCompany | src/routes/v1/company.rs:184-188 | After a rename, the lookup shows the new name with id and `created_at` kept |
| Positions.GetPosition | src/routes/v1/position.rs:22-59 | Without an id `invalid_query` (there is no listing); with one, `position_not_found` exactly when the lookup fails or the id is absent, else a stored row with that id |
| Positions.AddPosition | src/routes/v1/position.rs:66-107 | `position_name_required` without a name and no change; otherwise exactly one position appended with a fresh id, the store's time and that name |
| Positions.UpdatePosition | src/routes/v1/position.rs:115-163 | `position_id_required` before `position_name_required`; on success only the name of the row with that id changes |
| Positions.GetPositionReturnsRow | src/routes/v1/position.rs:37-44 | Under a primary key, asking for a stored position's id returns that row unchanged |
| Positions.AddThenGetPosition | src/routes/v1/position.rs:93-100 | A position just added is found under the id the store gave it |
| Positions.UpdateThenGetPosition | src/routes/v1/position.rs:152-156 | After a rename, the lookup shows the new name with id and `created_at` kept |
| Follows.Precheck | src/routes/v1/follow.rs:26-72 | Equal ids are refused before the pool is asked; then the pool; then the follower and the followed user must each exist, else `user_not_found` |
| Follows.FollowUser | src/routes/v1/follow.rs:18-87 | `user_following_self` for equal ids whatever the backend; on success exactly one edge row (follower, followed) is appended with a fresh id and existing rows are kept, duplicates allowed; every error leaves the database unchanged |
| Follows.UnfollowUser | src/routes/v1/follow.rs:89-158 | `user_unfollowing_self` for equal ids; on success exactly the rows of that directed edge are removed and every other row stays; success does not depend on an edge having existed |
| Follows.FollowCounts | src/routes/v1/follow.rs:73-78 | A follow raises the followed user's follower count by one and leaves every other user's count as it was |
| Follows.EdgeGrows | src/routes/v1/follow.rs:73-78 | A follow adds one row for its edge and no user |
| Follows.UnfollowClearsEdge | src/routes/v1/follow.rs:144-148 | After an unfollow no row of that edge remains |
| Follows.FollowTwiceUnfollowOnce | src/routes/v1/follow.rs:144-157 | Following twice adds two rows of the edge; one unfollow then succeeds and leaves none |
| Follows.UnfollowKeepsOtherEdges | src/routes/v1/follow.rs:144-148 | Unfollowing leaves the rows of every other edge, the reverse edge included, exactly as they were |
| Follows.UnfollowKeepsOtherCounts | src/routes/v1/follow.rs:144-148 | Unfollowing leaves every other user's follower count unchanged |
| Follows.UnfollowUndoesFollow | src/routes/v1/follow.rs:144-157 | Follow followed by unfollow of the same edge gives the same reply and database as the unfollow alone |
| Invariants.RegisterKeepsValid | src/routes/v1/user.rs:164-172 | Registration keeps the database valid |
| Invariants.UpdateUserKeepsValid | src/routes/v1/user.rs:218-236 | The user update keeps the database valid |
| Invariants.AddPostKeepsValid | src/routes/v1/post.rs:207-222 | Adding a post keeps the database valid |
| Invariants.DirectoryAddKeepsValid | src/routes/v1/company.rs:125-130 | Adding a company or position keeps the database valid |
| Invariants.DirectoryUpdateKeepsValid | src/routes/v1/company.rs:184-186 | Renaming a company or position keeps the database valid |
| Invariants.AddCompanyKeepsValid | src/routes/v1/company.rs:125-130 | Adding a company keeps the database valid |
| Invariants.UpdateCompanyKeepsValid | src/routes/v1/company.rs:184-186 | Renaming a company keeps the database valid |
| Invariants.AddPositionKeepsValid | src/routes/v1/position.rs:93-98 | Adding a position keeps the database valid |
| Invariants.UpdatePositionKeepsValid | src/routes/v1/position.rs:152-154 | Renaming a position keeps the database valid |
| Invariants.FollowKeepsValid | src/routes/v1/follow.rs:26-78 | Following keeps the database valid, self-edges included, since those are refused |
| Invariants.UnfollowKeepsValid | src/routes/v1/follow.rs:144-148 | Unfollowing keeps the database valid |
| Scenarios.FollowCycle | src/routes/v1/follow.rs:73-78 | A user with no followers has one after a follow and none after the matching unfollow, as `GET /user` reports |
| Scenarios.FollowUnfollowScenario | src/routes/v1/user.rs:66-72 | Register A and B, A follows B: B's lookup by username reports `follow_count` 1; A unfollows B: it reports 0 |
| Scenarios.AddCompanyScenario | src/routes/v1/company.rs:115-130 | Adding a company without a name gives `company_name_required` and no change; with a name it succeeds and the listing is unchanged |

## Left out

- Connection pool construction, environment and server start-up (`src/main.rs`, `src/db.rs`): a checkout is modelled only as `Backend.poolAvailable`.
- Which store statements fail, and why: this is the `Backend.failing` parameter. The store's error text is not modelled.
- Panicking paths: the query-string `unwrap`s, the `expect` on the `GET /user` load, the `unwrap` of its follower count, and the `expect` on the `GET /post` id load. The model takes these statements as always succeeding, because the source aborts the request rather than answering.
- Response envelope, human-readable messages and JSON serialisation (`src/response.rs`): an error is its status and error code.
- Multipart, form and JSON decoding: requests arrive decoded, with optional fields as `Option`.
- `add_dummy_user`: a constant insert with no decisions in it.
- Routing (`src/routes/v1/init.rs`): it mounts only the user scope, so the other handlers are modelled although that file does not expose them.
- Concurrency, transactions and the check-then-insert race of registration: each handler runs alone against one database state.
- Row order: the source gives no `ORDER BY`, and the model reads rows in insertion order.
- Query.DeleteWhere: the contract states which rows remain and how many copies of each, not their relative order, since without an `ORDER BY` the store promises none.
- Id generation and timestamps: a new id is `1 + max`. Only its freshness is relied on. `created_at` is `Backend.now`.
- 64-bit integers: ids, `limit` and `offset` are unbounded. Overflow is not modelled.
- Companies.GetCompany: the function's own contract states only that every listing entry comes from a link and the names at its ends. The exact content of the listing under primary keys is stated by the lemma `Companies.GetCompanyListingExact`.
- Posts.PostById: the function's own contract states the error cases. The shape of a success is stated by `Posts.PostByIdFound`.

## Notes on the source

- `src/models.rs` gives `User` a `name` field, and `GET /post` selects it, but the `users` table in `src/schema.rs` has no such column. The model follows `src/models.rs`.
- `POST /user/update` with none of email, username or password gives the query builder an empty changeset. The builder refuses it with an error before querying, which the handler reports as `update_user_failed`.
- PostgreSQL refuses a negative `LIMIT` or `OFFSET`.
  - In the per-user listing this surfaces as `posts_not_found`.
  - In the full listing it surfaces as `invalid_query`.
- The registration check reads only the first row that shares the email or the username. A duplicate email held by a later row is reported as `duplicate_username` when an earlier row holds the username (`Users.EarlierUsernameRowWins`).
- The follow table has no uniqueness on the (follower, followed) pair, so repeated follows add repeated rows. The follower count counts them all.
