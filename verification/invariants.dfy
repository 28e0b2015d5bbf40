/** Every handler that writes keeps the database valid: primary keys stay
    unique, every foreign key still names a row, and no user follows
    themselves. No handler requires validity to run; these lemmas say what
    it keeps once it holds. */
module Invariants {
  import opened Query
  import opened Schema
  import opened Responses
  import opened Pool
  import Users
  import Posts
  import Directory
  import Companies
  import Positions
  import Follows

  lemma RegisterKeepsValid(db: Db, reg: Users.Registration, b: Backend)
    requires Valid(db)
    ensures Valid(Users.Register(db, reg, b).db)
  {
    var db' := Users.Register(db, reg, b).db;
    if Users.Register(db, reg, b).result.Ok? {
      var u := db'.users[|db.users|];
      assert db'.users == db.users + [u];
      KeysAppend(db.users, u, UserKey);
      UniqueAppend(db.users, u, UserKey);
      assert UserIds(db) <= UserIds(db');
      forall v | v in db'.users && v.companyPositionId.Some?
        ensures v.companyPositionId.value in Keys(db'.companyPositions, CompanyPositionKey)
      {
        if v != u {
          assert v in db.users;
        }
      }
    }
  }

  /** The patch touches only email, username and password, so keys and
      foreign keys are kept. */
  lemma UpdateUserKeepsValid(db: Db, form: Users.UserForm, b: Backend)
    requires Valid(db)
    ensures Valid(Users.UpdateUser(db, form, b).db)
  {
    var r := Users.UpdateUser(db, form, b);
    if r.result.Ok? {
      var db' := r.db;
      assert db'.users == UpdateWhere(db.users, Users.WithEmail(form.oldEmail), Users.Patch(form));
      UpdateWhereKeys(db.users, Users.WithEmail(form.oldEmail), Users.Patch(form), UserKey);
      forall v | v in db'.users && v.companyPositionId.Some?
        ensures v.companyPositionId.value in Keys(db'.companyPositions, CompanyPositionKey)
      {
        var i :| 0 <= i < |db'.users| && db'.users[i] == v;
        assert db.users[i] in db.users;
      }
    }
  }

  lemma AddPostKeepsValid(db: Db, form: Posts.PostForm, b: Backend)
    requires Valid(db)
    ensures Valid(Posts.AddPost(db, form, b).db)
  {
    var db' := Posts.AddPost(db, form, b).db;
    if Posts.AddPost(db, form, b).result.Ok? {
      var p := db'.posts[|db.posts|];
      assert db'.posts == db.posts + [p];
      UniqueAppend(db.posts, p, PostKey);
    }
  }

  /** Adding a row to a name table keeps its keys unique and loses no key. */
  lemma DirectoryAddKeepsValid(db: Db, k: Directory.Kind, name: Option<string>, b: Backend)
    requires Valid(db)
    ensures Valid(Directory.Add(db, k, name, b).db)
  {
    var db' := Directory.Add(db, k, name, b).db;
    if Directory.Add(db, k, name, b).result.Ok? {
      var rows := Directory.Rows(db, k);
      var row := Directory.Rows(db', k)[|rows|];
      assert Directory.Rows(db', k) == rows + [row];
      KeysAppend(rows, row, NamedKey);
      UniqueAppend(rows, row, NamedKey);
    }
  }

  /** A rename keeps every id, so keys and foreign keys are kept. */
  lemma DirectoryUpdateKeepsValid(db: Db, k: Directory.Kind, id: Option<int>, name: Option<string>, b: Backend)
    requires Valid(db)
    ensures Valid(Directory.Update(db, k, id, name, b).db)
  {
    var db' := Directory.Update(db, k, id, name, b).db;
    if Directory.Update(db, k, id, name, b).result.Ok? {
      var rows := Directory.Rows(db, k);
      assert Directory.Rows(db', k) == UpdateWhere(rows, KeyIs(NamedKey, id.value), Directory.RenameTo(name.value));
      UpdateWhereKeys(rows, KeyIs(NamedKey, id.value), Directory.RenameTo(name.value), NamedKey);
    }
  }

  lemma AddCompanyKeepsValid(db: Db, name: Option<string>, b: Backend)
    requires Valid(db)
    ensures Valid(Companies.AddCompany(db, name, b).db)
  {
    DirectoryAddKeepsValid(db, Directory.CompanyTable, name, b);
  }

  lemma UpdateCompanyKeepsValid(db: Db, id: Option<int>, name: Option<string>, b: Backend)
    requires Valid(db)
    ensures Valid(Companies.UpdateCompany(db, id, name, b).db)
  {
    DirectoryUpdateKeepsValid(db, Directory.CompanyTable, id, name, b);
  }

  lemma AddPositionKeepsValid(db: Db, name: Option<string>, b: Backend)
    requires Valid(db)
    ensures Valid(Positions.AddPosition(db, name, b).db)
  {
    DirectoryAddKeepsValid(db, Directory.PositionTable, name, b);
  }

  lemma UpdatePositionKeepsValid(db: Db, id: Option<int>, name: Option<string>, b: Backend)
    requires Valid(db)
    ensures Valid(Positions.UpdatePosition(db, id, name, b).db)
  {
    DirectoryUpdateKeepsValid(db, Directory.PositionTable, id, name, b);
  }

  /** A new edge joins two distinct existing users under a fresh id. */
  lemma FollowKeepsValid(db: Db, form: Follows.FollowForm, b: Backend)
    requires Valid(db)
    ensures Valid(Follows.FollowUser(db, form, b).db)
  {
    var db' := Follows.FollowUser(db, form, b).db;
    if Follows.FollowUser(db, form, b).result.Ok? {
      var f := db'.follows[|db.follows|];
      assert db'.follows == db.follows + [f];
      UniqueAppend(db.follows, f, FollowKey);
    }
  }

  /** Deleting edges keeps the rest, whose keys stay unique. */
  lemma UnfollowKeepsValid(db: Db, form: Follows.FollowForm, b: Backend)
    requires Valid(db)
    ensures Valid(Follows.UnfollowUser(db, form, b).db)
  {
    var db' := Follows.UnfollowUser(db, form, b).db;
    if Follows.UnfollowUser(db, form, b).result.Ok? {
      assert db'.follows == DeleteWhere(db.follows, Follows.IsEdge(form.userId, form.followedUserId));
      FilterKeys(db.follows, Excluding(Follows.IsEdge(form.userId, form.followedUserId)), FollowKey);
    }
  }
}
