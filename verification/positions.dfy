/** The position handlers of src/routes/v1/position.rs: point lookup, insert,
    and rename. Unlike GET /company, GET /position has no listing. */
module Positions {
  import opened Query
  import opened Schema
  import opened Responses
  import opened Pool
  import Directory

  /** GET /position: an id is required; any failure of the lookup reads as
      position_not_found. */
  function GetPosition(db: Db, id: Option<int>, b: Backend): (r: Result<Position>)
    ensures !b.poolAvailable ==> r == Err(DbConnectionFailed)
    ensures b.poolAvailable && id.None? ==> r == Err(InvalidQuery)
    ensures r.Ok? <==> b.poolAvailable && id.Some? && !b.Fails(0) && id.value in Keys(db.positions, NamedKey)
    ensures b.poolAvailable && id.Some? && r.Err? ==> r.error == PositionNotFound
    ensures r.Ok? ==> r.value in db.positions && r.value.id == id.value
  {
    if !b.poolAvailable then Err(DbConnectionFailed)
    else if id.None? then Err(InvalidQuery)
    else Directory.Lookup(db, Directory.PositionTable, id.value, b)
  }

  /** POST /position: `name` is required; the store assigns id and created_at. */
  function AddPosition(db: Db, name: Option<string>, b: Backend): (r: Reply<()>)
    ensures r.result.Err? ==> r.db == db
    ensures !b.poolAvailable ==> r.result == Err(DbConnectionFailed)
    ensures b.poolAvailable && name.None? ==> r.result == Err(PositionNameRequired)
    ensures b.poolAvailable && name.Some? && b.Fails(0) ==> r.result == Err(PositionAddFailed)
    ensures r.result.Ok? <==> b.poolAvailable && name.Some? && !b.Fails(0)
    ensures r.result.Ok? ==>
              && r.db == db.(positions := r.db.positions)
              && |r.db.positions| == |db.positions| + 1
              && r.db.positions[..|db.positions|] == db.positions
              && r.db.positions[|db.positions|].id !in Keys(db.positions, NamedKey)
              && r.db.positions[|db.positions|].createdAt == b.now
              && r.db.positions[|db.positions|].name == name.value
  {
    Directory.Add(db, Directory.PositionTable, name, b)
  }

  /** POST /position/update: id, then name, are required; an id no row has is
      still a success. */
  function UpdatePosition(db: Db, id: Option<int>, name: Option<string>, b: Backend): (r: Reply<()>)
    ensures r.result.Err? ==> r.db == db
    ensures !b.poolAvailable ==> r.result == Err(DbConnectionFailed)
    ensures b.poolAvailable && id.None? ==> r.result == Err(PositionIdRequired)
    ensures b.poolAvailable && id.Some? && name.None? ==> r.result == Err(PositionNameRequired)
    ensures b.poolAvailable && id.Some? && name.Some? && b.Fails(0) ==> r.result == Err(PositionUpdateFailed)
    ensures r.result.Ok? <==> b.poolAvailable && id.Some? && name.Some? && !b.Fails(0)
    ensures r.result.Ok? ==>
              && r.db == db.(positions := r.db.positions)
              && |r.db.positions| == |db.positions|
              && forall i :: 0 <= i < |db.positions| ==>
                   && r.db.positions[i].id == db.positions[i].id
                   && r.db.positions[i].createdAt == db.positions[i].createdAt
                   && r.db.positions[i].name ==
                        (if db.positions[i].id == id.value then name.value else db.positions[i].name)
  {
    Directory.Update(db, Directory.PositionTable, id, name, b)
  }

  /** Under a primary key, asking for a stored position's id returns that row as stored. */
  lemma GetPositionReturnsRow(db: Db, b: Backend, i: int)
    requires UniqueKeys(db.positions, NamedKey)
    requires b.poolAvailable && !b.Fails(0)
    requires 0 <= i < |db.positions|
    ensures GetPosition(db, Some(db.positions[i].id), b) == Ok(db.positions[i])
  {
    Directory.LookupUnique(db, Directory.PositionTable, db.positions[i].id, b, i);
  }

  /** A position just added is found under the id the store gave it. */
  lemma AddThenGetPosition(db: Db, name: string, b: Backend)
    requires UniqueKeys(db.positions, NamedKey)
    requires b.Healthy()
    ensures var id := NextId(db.positions, NamedKey);
            GetPosition(AddPosition(db, Some(name), b).db, Some(id), b) == Ok(Named(id, b.now, name))
  {
    Directory.AddThenLookup(db, Directory.PositionTable, name, b);
  }

  /** After a rename, the lookup returns the new name with id and created_at kept. */
  lemma UpdateThenGetPosition(db: Db, id: int, name: string, b: Backend, i: int)
    requires UniqueKeys(db.positions, NamedKey)
    requires b.Healthy()
    requires 0 <= i < |db.positions| && db.positions[i].id == id
    ensures var db' := UpdatePosition(db, Some(id), Some(name), b).db;
            GetPosition(db', Some(id), b) == Ok(Named(id, db.positions[i].createdAt, name))
  {
    Directory.UpdateThenLookup(db, Directory.PositionTable, id, name, b, i);
  }
}
