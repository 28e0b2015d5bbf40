/** What a handler hands back: a payload or an error, where an error is the
    HTTP status and `error_code` pair of src/response.rs (the human-readable
    message is not modelled). */
module Responses {
  import opened Schema

  const BadRequest := 400
  const NotFound := 404
  const InternalServerError := 500

  datatype Error = Error(status: int, code: string)

  datatype Result<+T> = Ok(value: T) | Err(error: Error)

  /** A handler's outcome together with the database it leaves behind. */
  datatype Reply<+T> = Reply(result: Result<T>, db: Db)

  // Shared by every handler.
  const DbConnectionFailed := Error(InternalServerError, "db_connection_failed")
  const InvalidQuery := Error(BadRequest, "invalid_query")
  const UserNotFound := Error(NotFound, "user_not_found")

  // src/routes/v1/user.rs
  const DuplicateEmail := Error(BadRequest, "duplicate_email")
  const DuplicateUsername := Error(BadRequest, "duplicate_username")
  const CheckUserFailed := Error(InternalServerError, "check_user_failed")
  const AddUserFailed := Error(InternalServerError, "add_user_failed")
  const UpdateUserFailed := Error(InternalServerError, "update_user_failed")

  // src/routes/v1/post.rs
  const PostNotFound := Error(NotFound, "post_not_found")
  const PostsNotFound := Error(NotFound, "posts_not_found")
  const UserIdRequired := Error(BadRequest, "user_id_required")
  const PostBodyRequired := Error(BadRequest, "post_body_required")
  const AddPostFailed := Error(InternalServerError, "add_post_failed")

  // src/routes/v1/company.rs
  const CompanyNotFound := Error(NotFound, "company_not_found")
  const CompanyIdRequired := Error(BadRequest, "company_id_required")
  const CompanyNameRequired := Error(BadRequest, "company_name_required")
  const CompanyAddFailed := Error(InternalServerError, "company_add_failed")
  const CompanyUpdateFailed := Error(InternalServerError, "company_update_failed")

  // src/routes/v1/position.rs
  const PositionNotFound := Error(NotFound, "position_not_found")
  const PositionIdRequired := Error(BadRequest, "position_id_required")
  const PositionNameRequired := Error(BadRequest, "position_name_required")
  const PositionAddFailed := Error(InternalServerError, "position_add_failed")
  const PositionUpdateFailed := Error(InternalServerError, "position_update_failed")

  // src/routes/v1/follow.rs
  const UserFollowingSelf := Error(BadRequest, "user_following_self")
  const UserUnfollowingSelf := Error(BadRequest, "user_unfollowing_self")
  const FollowUserFailed := Error(InternalServerError, "follow_user_failed")
  const UnfollowUserFailed := Error(InternalServerError, "unfollow_user_failed")
}

/** The store as one request sees it: whether the pool hands out a connection,
    which of the request's statements the store rejects (statement 0 is the
    first one the handler issues, 1 the second, ...), and the clock that stamps
    inserted rows. */
module Pool {
  import opened Schema

  datatype Backend = Backend(poolAvailable: bool, failing: set<nat>, now: Timestamp) {

    predicate Fails(k: nat) {
      k in failing
    }

    /** A connection is available and every statement succeeds. */
    predicate Healthy() {
      poolAvailable && failing == {}
    }
  }
}
