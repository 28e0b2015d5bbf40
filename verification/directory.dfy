/** The operations that src/routes/v1/company.rs and src/routes/v1/position.rs
    share, written once over the common row shape: point lookup by id, insert
    of a named row, and rename by id. A `Kind` picks the table and the error
    codes of each entity. */
module Directory {
  import opened Query
  import opened Schema
  import opened Responses
  import opened Pool

  datatype Kind = CompanyTable | PositionTable

  function Rows(db: Db, k: Kind): seq<Named> {
    match k
    case CompanyTable => db.companies
    case PositionTable => db.positions
  }

  /** The database with table `k` replaced and the five others untouched. */
  function WithRows(db: Db, k: Kind, rows: seq<Named>): (r: Db)
    ensures Rows(r, k) == rows
    ensures r.users == db.users && r.posts == db.posts && r.follows == db.follows
    ensures r.companyPositions == db.companyPositions
    ensures k == CompanyTable ==> r.positions == db.positions
    ensures k == PositionTable ==> r.companies == db.companies
  {
    match k
    case CompanyTable => db.(companies := rows)
    case PositionTable => db.(positions := rows)
  }

  function NotFoundError(k: Kind): Error {
    if k == CompanyTable then CompanyNotFound else PositionNotFound
  }

  function IdRequired(k: Kind): Error {
    if k == CompanyTable then CompanyIdRequired else PositionIdRequired
  }

  function NameRequired(k: Kind): Error {
    if k == CompanyTable then CompanyNameRequired else PositionNameRequired
  }

  function AddFailed(k: Kind): Error {
    if k == CompanyTable then CompanyAddFailed else PositionAddFailed
  }

  function UpdateFailed(k: Kind): Error {
    if k == CompanyTable then CompanyUpdateFailed else PositionUpdateFailed
  }

  /** `table.find(id).first()`, any failure read as "not found". */
  function Lookup(db: Db, k: Kind, id: int, b: Backend): (r: Result<Named>)
    ensures r.Err? <==> b.Fails(0) || id !in Keys(Rows(db, k), NamedKey)
    ensures r.Err? ==> r.error == NotFoundError(k)
    ensures r.Ok? ==> r.value in Rows(db, k) && r.value.id == id
  {
    var row := NamedById(Rows(db, k), id);
    if b.Fails(0) || row.None? then Err(NotFoundError(k)) else Ok(row.value)
  }

  /** Under a unique key the lookup returns the one row with that id. */
  lemma LookupUnique(db: Db, k: Kind, id: int, b: Backend, i: int)
    requires UniqueKeys(Rows(db, k), NamedKey)
    requires !b.Fails(0)
    requires 0 <= i < |Rows(db, k)| && Rows(db, k)[i].id == id
    ensures Lookup(db, k, id, b) == Ok(Rows(db, k)[i])
  {
    var rows := Rows(db, k);
    KeysMember(rows, NamedKey, id);
    assert NamedKey(rows[i]) == id;
    var found := Lookup(db, k, id, b).value;
    var j :| 0 <= j < |rows| && rows[j] == found;
    UniqueIndices(rows, NamedKey, i, j);
  }

  /** Insert a row with the given name; the store assigns id and created_at. */
  function Add(db: Db, k: Kind, name: Option<string>, b: Backend): (r: Reply<()>)
    ensures r.result.Err? ==> r.db == db
    ensures !b.poolAvailable ==> r.result == Err(DbConnectionFailed)
    ensures b.poolAvailable && name.None? ==> r.result == Err(NameRequired(k))
    ensures b.poolAvailable && name.Some? && b.Fails(0) ==> r.result == Err(AddFailed(k))
    ensures r.result.Ok? <==> b.poolAvailable && name.Some? && !b.Fails(0)
    ensures r.result.Ok? ==>
              && r.db == WithRows(db, k, Rows(r.db, k))
              && |Rows(r.db, k)| == |Rows(db, k)| + 1
              && Rows(r.db, k)[..|Rows(db, k)|] == Rows(db, k)
              && var row := Rows(r.db, k)[|Rows(db, k)|];
                 && row.id !in Keys(Rows(db, k), NamedKey)
                 && row.createdAt == b.now
                 && row.name == name.value
  {
    if !b.poolAvailable then Reply(Err(DbConnectionFailed), db)
    else if name.None? then Reply(Err(NameRequired(k)), db)
    else if b.Fails(0) then Reply(Err(AddFailed(k)), db)
    else
      var rows := Rows(db, k);
      var row := Named(NextId(rows, NamedKey), b.now, name.value);
      assert (rows + [row])[..|rows|] == rows;
      Reply(Ok(()), WithRows(db, k, rows + [row]))
  }

  function RenameTo(name: string): Named -> Named {
    (n: Named) => n.(name := name)
  }

  /** `update(table.find(id)).set(name.eq(name))`: id is checked before name,
      and success does not depend on a row having that id. */
  function Update(db: Db, k: Kind, id: Option<int>, name: Option<string>, b: Backend): (r: Reply<()>)
    ensures r.result.Err? ==> r.db == db
    ensures !b.poolAvailable ==> r.result == Err(DbConnectionFailed)
    ensures b.poolAvailable && id.None? ==> r.result == Err(IdRequired(k))
    ensures b.poolAvailable && id.Some? && name.None? ==> r.result == Err(NameRequired(k))
    ensures b.poolAvailable && id.Some? && name.Some? && b.Fails(0) ==> r.result == Err(UpdateFailed(k))
    ensures r.result.Ok? <==> b.poolAvailable && id.Some? && name.Some? && !b.Fails(0)
    ensures r.result.Ok? ==>
              && r.db == WithRows(db, k, Rows(r.db, k))
              && |Rows(r.db, k)| == |Rows(db, k)|
              && forall i :: 0 <= i < |Rows(db, k)| ==>
                   var (before, after) := (Rows(db, k)[i], Rows(r.db, k)[i]);
                   && after.id == before.id && after.createdAt == before.createdAt
                   && after.name == (if before.id == id.value then name.value else before.name)
  {
    if !b.poolAvailable then Reply(Err(DbConnectionFailed), db)
    else if id.None? then Reply(Err(IdRequired(k)), db)
    else if name.None? then Reply(Err(NameRequired(k)), db)
    else if b.Fails(0) then Reply(Err(UpdateFailed(k)), db)
    else
      var rows := UpdateWhere(Rows(db, k), KeyIs(NamedKey, id.value), RenameTo(name.value));
      Reply(Ok(()), WithRows(db, k, rows))
  }

  /** After a successful rename, looking the id up yields the new name with
      the same id and creation time. */
  lemma UpdateThenLookup(db: Db, k: Kind, id: int, name: string, b: Backend, i: int)
    requires UniqueKeys(Rows(db, k), NamedKey)
    requires b.Healthy()
    requires 0 <= i < |Rows(db, k)| && Rows(db, k)[i].id == id
    ensures var db' := Update(db, k, Some(id), Some(name), b).db;
            Lookup(db', k, id, b) == Ok(Named(id, Rows(db, k)[i].createdAt, name))
  {
    var db' := Update(db, k, Some(id), Some(name), b).db;
    UpdateWhereKeys(Rows(db, k), KeyIs(NamedKey, id), RenameTo(name), NamedKey);
    assert Rows(db', k) == UpdateWhere(Rows(db, k), KeyIs(NamedKey, id), RenameTo(name));
    LookupUnique(db', k, id, b, i);
  }

  /** A rename of an id no row has succeeds and changes nothing. */
  lemma UpdateMissingId(db: Db, k: Kind, id: int, name: string, b: Backend)
    requires b.Healthy()
    requires id !in Keys(Rows(db, k), NamedKey)
    ensures Update(db, k, Some(id), Some(name), b) == Reply(Ok(()), db)
  {
    var rows := Rows(db, k);
    var rows' := UpdateWhere(rows, KeyIs(NamedKey, id), RenameTo(name));
    forall i | 0 <= i < |rows| ensures rows'[i] == rows[i] {
      KeysOfMembers(rows, NamedKey, rows[i]);
    }
    assert rows' == rows;
    match k
    case CompanyTable => assert WithRows(db, k, rows) == db;
    case PositionTable => assert WithRows(db, k, rows) == db;
  }

  /** An inserted row can be looked up by the id the store gave it. */
  lemma AddThenLookup(db: Db, k: Kind, name: string, b: Backend)
    requires UniqueKeys(Rows(db, k), NamedKey)
    requires b.Healthy()
    ensures var db' := Add(db, k, Some(name), b).db;
            var id := NextId(Rows(db, k), NamedKey);
            Lookup(db', k, id, b) == Ok(Named(id, b.now, name))
  {
    var rows := Rows(db, k);
    var db' := Add(db, k, Some(name), b).db;
    var row := Named(NextId(rows, NamedKey), b.now, name);
    assert Rows(db', k) == rows + [row];
    UniqueAppend(rows, row, NamedKey);
    LookupUnique(db', k, row.id, b, |rows|);
  }
}
