/** The company handlers of src/routes/v1/company.rs: point lookup or the
    company/position listing, insert, and rename. */
module Companies {
  import opened Query
  import opened Schema
  import opened Responses
  import opened Pool
  import Directory

  /** One listing entry: the link's id with the names at both of its ends. */
  datatype CompanyResult = CompanyResult(id: int, companyName: string, positionName: string)

  /** What GET /company answers: the one company asked for, or the listing. */
  datatype CompanyView = Found(company: Company) | Listing(entries: seq<CompanyResult>)

  /** Every (company, position) pair for one link, company-major: each entry
      carries the link id, the name of one of `cs` and the name of one of `ps`. */
  function Pairs(id: int, cs: seq<Company>, ps: seq<Position>): (r: seq<CompanyResult>)
    ensures |r| == |cs| * |ps|
    ensures forall e :: e in r ==>
              && e.id == id
              && (exists c :: c in cs && c.name == e.companyName)
              && (exists p :: p in ps && p.name == e.positionName)
  {
    if |cs| == 0 then []
    else
      var head := seq(|ps|, j requires 0 <= j < |ps| => CompanyResult(id, cs[0].name, ps[j].name));
      assert forall e :: e in head ==> e.id == id && cs[0].name == e.companyName
                                       && exists p :: p in ps && p.name == e.positionName;
      head + Pairs(id, cs[1..], ps)
  }

  /** The rows one link contributes to the inner join: one per company and
      position whose ids are the link's two ends. */
  function LinkRows(cp: CompanyPosition, cs: seq<Company>, ps: seq<Position>): (r: seq<CompanyResult>)
    ensures |r| == |Filter(cs, KeyIs(NamedKey, cp.companyId))| * |Filter(ps, KeyIs(NamedKey, cp.positionId))|
    ensures forall e :: e in r ==>
              && e.id == cp.id
              && (exists c :: c in cs && c.id == cp.companyId && c.name == e.companyName)
              && (exists p :: p in ps && p.id == cp.positionId && p.name == e.positionName)
  {
    var cos := Filter(cs, KeyIs(NamedKey, cp.companyId));
    var pos := Filter(ps, KeyIs(NamedKey, cp.positionId));
    KeyFilterMembers(cs, NamedKey, cp.companyId);
    KeyFilterMembers(ps, NamedKey, cp.positionId);
    Pairs(cp.id, cos, pos)
  }

  /** `company_position ⋈ company ⋈ position`, projected to
      (company name, position name, link id), in link order: every entry is
      some link's id with the names at that link's two ends. */
  function Join(cps: seq<CompanyPosition>, cs: seq<Company>, ps: seq<Position>): (r: seq<CompanyResult>)
    ensures forall e :: e in r ==> exists cp :: cp in cps && LinkedBy(e, cp, cs, ps)
  {
    if |cps| == 0 then []
    else
      var head := LinkRows(cps[0], cs, ps);
      var rest := Join(cps[1..], cs, ps);
      assert forall e :: e in head ==> LinkedBy(e, cps[0], cs, ps);
      assert forall cp :: cp in cps[1..] ==> cp in cps;
      head + rest
  }

  /** Entry `e` could come from link `cp`: it has the link's id and the names
      of a company and a position with the ids the link holds. */
  predicate LinkedBy(e: CompanyResult, cp: CompanyPosition, cs: seq<Company>, ps: seq<Position>) {
    && e.id == cp.id
    && (exists c :: c in cs && c.id == cp.companyId && c.name == e.companyName)
    && (exists p :: p in ps && p.id == cp.positionId && p.name == e.positionName)
  }

  /** The listing `GET /company` answers without an id. */
  function CompanyListing(db: Db): seq<CompanyResult> {
    Join(db.companyPositions, db.companies, db.positions)
  }

  /** Whether a link has both of its ends present. */
  function Resolves(cs: seq<Company>, ps: seq<Position>): CompanyPosition -> bool {
    (cp: CompanyPosition) =>
      cp.companyId in Keys(cs, NamedKey) && cp.positionId in Keys(ps, NamedKey)
  }

  /** GET /company. With an id: the company, or company_not_found on any
      failure. Without: the listing, which may be empty; a failed load is
      invalid_query. */
  function GetCompany(db: Db, id: Option<int>, b: Backend): (r: Result<CompanyView>)
    ensures !b.poolAvailable ==> r == Err(DbConnectionFailed)
    ensures b.poolAvailable && id.Some? ==>
              && (r.Err? <==> b.Fails(0) || id.value !in Keys(db.companies, NamedKey))
              && (r.Err? ==> r.error == CompanyNotFound)
              && (r.Ok? ==> r.value.Found? && r.value.company in db.companies
                            && r.value.company.id == id.value)
    ensures b.poolAvailable && id.None? ==>
              && (r.Err? <==> b.Fails(0))
              && (r.Err? ==> r.error == InvalidQuery)
              && (r.Ok? ==> r.value.Listing?
                            && forall e :: e in r.value.entries ==>
                                 exists cp :: cp in db.companyPositions && LinkedBy(e, cp, db.companies, db.positions))
  {
    if !b.poolAvailable then Err(DbConnectionFailed)
    else if id.Some? then
      match Directory.Lookup(db, Directory.CompanyTable, id.value, b)
      case Ok(c) => Ok(Found(c))
      case Err(e) => Err(e)
    else if b.Fails(0) then Err(InvalidQuery)
    else
      Ok(Listing(CompanyListing(db)))
  }

  /** A listing entry shows link `cp`: its id, and the names of a company and
      a position with the ids the link holds. */
  predicate Shows(e: CompanyResult, cp: CompanyPosition, cs: seq<Company>, ps: seq<Position>) {
    && e.id == cp.id
    && NamedById(cs, cp.companyId).Some? && NamedById(cs, cp.companyId).value.name == e.companyName
    && NamedById(ps, cp.positionId).Some? && NamedById(ps, cp.positionId).value.name == e.positionName
  }

  /** Entry i of the listing shows link i, for every i. */
  predicate ShowsAll(entries: seq<CompanyResult>, links: seq<CompanyPosition>, cs: seq<Company>, ps: seq<Position>) {
    |entries| == |links| && forall i :: 0 <= i < |links| ==> Shows(entries[i], links[i], cs, ps)
  }

  lemma ShowsCons(e: CompanyResult, cp: CompanyPosition, entries: seq<CompanyResult>, links: seq<CompanyPosition>,
                  cs: seq<Company>, ps: seq<Position>)
    requires Shows(e, cp, cs, ps) && ShowsAll(entries, links, cs, ps)
    ensures ShowsAll([e] + entries, [cp] + links, cs, ps)
  {
    forall i | 1 <= i < |links| + 1 ensures Shows(([e] + entries)[i], ([cp] + links)[i], cs, ps) {
      assert ([e] + entries)[i] == entries[i - 1];
    }
  }

  /** Under primary keys on both joined tables, the listing has exactly one
      entry per link whose two ends exist, in link order, carrying the link's
      id and the names of its company and position. */
  lemma {:induction false} ListingExact(cps: seq<CompanyPosition>, cs: seq<Company>, ps: seq<Position>)
    requires UniqueKeys(cs, NamedKey) && UniqueKeys(ps, NamedKey)
    ensures ShowsAll(Join(cps, cs, ps), Filter(cps, Resolves(cs, ps)), cs, ps)
  {
    if |cps| > 0 {
      ListingExact(cps[1..], cs, ps);
      var cp := cps[0];
      LinkRowsExact(cp, cs, ps);
      FilterCons(cps, Resolves(cs, ps));
      var head := LinkRows(cp, cs, ps);
      assert Join(cps, cs, ps) == head + Join(cps[1..], cs, ps);
      if Resolves(cs, ps)(cp) {
        assert head == [head[0]];
        ShowsCons(head[0], cp, Join(cps[1..], cs, ps), Filter(cps[1..], Resolves(cs, ps)), cs, ps);
      } else {
        assert head + Join(cps[1..], cs, ps) == Join(cps[1..], cs, ps);
      }
    }
  }

  /** Under primary keys, `GET /company` without an id succeeds on a working
      connection and lists exactly one entry per link whose two ends exist, in
      link order, with the link's id and the names at its ends. */
  lemma GetCompanyListingExact(db: Db, b: Backend)
    requires b.poolAvailable && !b.Fails(0)
    requires UniqueKeys(db.companies, NamedKey) && UniqueKeys(db.positions, NamedKey)
    ensures GetCompany(db, None, b).Ok? && GetCompany(db, None, b).value.Listing?
    ensures ShowsAll(GetCompany(db, None, b).value.entries,
                     Filter(db.companyPositions, Resolves(db.companies, db.positions)),
                     db.companies, db.positions)
  {
    ListingExact(db.companyPositions, db.companies, db.positions);
  }

  /** Under primary keys a link yields one entry when both ends exist, and none otherwise. */
  lemma LinkRowsExact(cp: CompanyPosition, cs: seq<Company>, ps: seq<Position>)
    requires UniqueKeys(cs, NamedKey) && UniqueKeys(ps, NamedKey)
    ensures Resolves(cs, ps)(cp) ==> |LinkRows(cp, cs, ps)| == 1 && Shows(LinkRows(cp, cs, ps)[0], cp, cs, ps)
    ensures !Resolves(cs, ps)(cp) ==> LinkRows(cp, cs, ps) == []
  {
    var cos := Filter(cs, KeyIs(NamedKey, cp.companyId));
    var pos := Filter(ps, KeyIs(NamedKey, cp.positionId));
    UniqueKeyFilter(cs, NamedKey, cp.companyId);
    UniqueKeyFilter(ps, NamedKey, cp.positionId);
    if Resolves(cs, ps)(cp) {
      FilterHead(cs, KeyIs(NamedKey, cp.companyId));
      FilterHead(ps, KeyIs(NamedKey, cp.positionId));
      assert LinkRows(cp, cs, ps)[0] == CompanyResult(cp.id, cos[0].name, pos[0].name);
    }
  }

  /** POST /company: `name` is required; the store assigns id and created_at. */
  function AddCompany(db: Db, name: Option<string>, b: Backend): (r: Reply<()>)
    ensures r.result.Err? ==> r.db == db
    ensures !b.poolAvailable ==> r.result == Err(DbConnectionFailed)
    ensures b.poolAvailable && name.None? ==> r.result == Err(CompanyNameRequired)
    ensures b.poolAvailable && name.Some? && b.Fails(0) ==> r.result == Err(CompanyAddFailed)
    ensures r.result.Ok? <==> b.poolAvailable && name.Some? && !b.Fails(0)
    ensures r.result.Ok? ==>
              && r.db == db.(companies := r.db.companies)
              && |r.db.companies| == |db.companies| + 1
              && r.db.companies[..|db.companies|] == db.companies
              && r.db.companies[|db.companies|].id !in Keys(db.companies, NamedKey)
              && r.db.companies[|db.companies|].createdAt == b.now
              && r.db.companies[|db.companies|].name == name.value
  {
    Directory.Add(db, Directory.CompanyTable, name, b)
  }

  /** POST /company/update: id, then name, are required; an id no row has is
      still a success. */
  function UpdateCompany(db: Db, id: Option<int>, name: Option<string>, b: Backend): (r: Reply<()>)
    ensures r.result.Err? ==> r.db == db
    ensures !b.poolAvailable ==> r.result == Err(DbConnectionFailed)
    ensures b.poolAvailable && id.None? ==> r.result == Err(CompanyIdRequired)
    ensures b.poolAvailable && id.Some? && name.None? ==> r.result == Err(CompanyNameRequired)
    ensures b.poolAvailable && id.Some? && name.Some? && b.Fails(0) ==> r.result == Err(CompanyUpdateFailed)
    ensures r.result.Ok? <==> b.poolAvailable && id.Some? && name.Some? && !b.Fails(0)
    ensures r.result.Ok? ==>
              && r.db == db.(companies := r.db.companies)
              && |r.db.companies| == |db.companies|
              && forall i :: 0 <= i < |db.companies| ==>
                   && r.db.companies[i].id == db.companies[i].id
                   && r.db.companies[i].createdAt == db.companies[i].createdAt
                   && r.db.companies[i].name ==
                        (if db.companies[i].id == id.value then name.value else db.companies[i].name)
  {
    Directory.Update(db, Directory.CompanyTable, id, name, b)
  }

  /** A new company has no links yet, so the listing is unchanged. */
  lemma AddCompanyKeepsListing(db: Db, name: string, b: Backend)
    requires Valid(db)
    ensures CompanyListing(AddCompany(db, Some(name), b).db) == CompanyListing(db)
  {
    var db' := AddCompany(db, Some(name), b).db;
    if db' != db {
      var row := db'.companies[|db.companies|];
      assert db'.companies == db.companies + [row];
      JoinIgnoresUnlinked(db.companyPositions, db.companies, row, db.positions);
    }
  }

  /** Appending a company no link points at leaves the join as it was. */
  lemma {:induction false} JoinIgnoresUnlinked(cps: seq<CompanyPosition>, cs: seq<Company>, c: Company, ps: seq<Position>)
    requires forall cp :: cp in cps ==> cp.companyId in Keys(cs, NamedKey)
    requires c.id !in Keys(cs, NamedKey)
    ensures Join(cps, cs + [c], ps) == Join(cps, cs, ps)
  {
    if |cps| > 0 {
      assert cps[0] in cps;
      LinkIgnoresUnlinked(cps[0], cs, c, ps);
      JoinIgnoresUnlinked(cps[1..], cs, c, ps);
    }
  }

  lemma LinkIgnoresUnlinked(cp: CompanyPosition, cs: seq<Company>, c: Company, ps: seq<Position>)
    requires cp.companyId in Keys(cs, NamedKey)
    requires c.id !in Keys(cs, NamedKey)
    ensures LinkRows(cp, cs + [c], ps) == LinkRows(cp, cs, ps)
  {
    var p := KeyIs(NamedKey, cp.companyId);
    FilterAppend(cs, [c], p);
    assert [c][1..] == [];
    assert NamedKey(c) != cp.companyId;
    assert !p(c);
    assert Filter([c], p) == [];
    assert Filter(cs + [c], p) == Filter(cs, p);
  }

  /** Under a primary key, asking for a stored company's id returns that row as stored. */
  lemma GetCompanyReturnsRow(db: Db, b: Backend, i: int)
    requires UniqueKeys(db.companies, NamedKey)
    requires b.poolAvailable && !b.Fails(0)
    requires 0 <= i < |db.companies|
    ensures GetCompany(db, Some(db.companies[i].id), b) == Ok(Found(db.companies[i]))
  {
    Directory.LookupUnique(db, Directory.CompanyTable, db.companies[i].id, b, i);
  }

  /** A company just added is found under the id the store gave it. */
  lemma AddThenGetCompany(db: Db, name: string, b: Backend)
    requires UniqueKeys(db.companies, NamedKey)
    requires b.Healthy()
    ensures var id := NextId(db.companies, NamedKey);
            GetCompany(AddCompany(db, Some(name), b).db, Some(id), b) == Ok(Found(Named(id, b.now, name)))
  {
    Directory.AddThenLookup(db, Directory.CompanyTable, name, b);
  }

  /** After a rename, the point lookup returns the new name. */
  lemma UpdateThenGetCompany(db: Db, id: int, name: string, b: Backend, i: int)
    requires UniqueKeys(db.companies, NamedKey)
    requires b.Healthy()
    requires 0 <= i < |db.companies| && db.companies[i].id == id
    ensures var db' := UpdateCompany(db, Some(id), Some(name), b).db;
            GetCompany(db', Some(id), b) == Ok(Found(Named(id, db.companies[i].createdAt, name)))
  {
    Directory.UpdateThenLookup(db, Directory.CompanyTable, id, name, b, i);
  }
}
