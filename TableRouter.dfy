/**
 * The table endpoints: list, get, create (with a unique-name check), partial
 * update (without one) and delete. None of them touches the reservations.
 */
module TableRouter {
  import opened Wrappers
  import opened Models
  import opened Store
  import opened TableSchema
  import opened PartialUpdate

  /** `setattr(table, field, value)` for one supplied field. */
  function SetAttr(t: Table, f: TableField): Table {
    match f
    case Name(v) => t.(name := v)
    case Seats(v) => t.(seats := v)
    case Location(v) => t.(location := v)
  }

  /**
   * The meaning of a partial update, field by field: a supplied field replaces
   * the stored value, an absent one keeps it, and the id never changes.
   */
  function Merge(t: Table, u: TableUpdate): Table {
    Table(t.id, u.name.GetOr(t.name), u.seats.GetOr(t.seats), u.location.GetOr(t.location))
  }

  /** Running `setattr` over the supplied fields yields exactly the field-by-field merge. */
  lemma {:induction false} SetAttrLoopIsMerge(t: Table, u: TableUpdate)
    ensures ApplyFields(t, UpdateData(u), SetAttr) == Merge(t, u)
  {
    var a := if u.name.Some? then [Name(u.name.value)] else [];
    var b := if u.seats.Some? then [Seats(u.seats.value)] else [];
    var c := if u.location.Some? then [Location(u.location.value)] else [];
    assert UpdateData(u) == a + b + c;
    var t1 := if u.name.Some? then t.(name := u.name.value) else t;
    var t2 := if u.seats.Some? then t1.(seats := u.seats.value) else t1;
    var t3 := if u.location.Some? then t2.(location := u.location.value) else t2;
    ApplyFieldsConcat(t, a, b + c, SetAttr);
    ApplyFieldsConcat(t1, b, c, SetAttr);
    assert ApplyFields(t, a, SetAttr) == t1;
    assert ApplyFields(t1, b, SetAttr) == t2;
    assert ApplyFields(t2, c, SetAttr) == t3;
    assert a + b + c == a + (b + c);
  }

  /** Rewriting one table without changing its id keeps the keys unique and in range. */
  lemma ReplacingKeepsKeys(ts: seq<Table>, k: nat, table: Table, nextId: int)
    requires k < |ts| && table.id == ts[k].id
    requires UniqueTableIds(ts) && forall t :: t in ts ==> 0 < t.id < nextId
    ensures UniqueTableIds(ts[k := table])
    ensures forall t :: t in ts[k := table] ==> 0 < t.id < nextId
  {
  }

  /** `GET /tables`: every stored table, in store order. */
  function GetTables(db: Database): seq<Table>
    reads db
  {
    db.tables
  }

  /** `GET /tables/{id}`: the stored table with that id, or NotFound when there is none. */
  function GetTable(db: Database, id: int): (o: Outcome<Table>)
    reads db
    ensures o.Ok? || o.NotFound?
    ensures o.NotFound? <==> forall t :: t in db.tables ==> t.id != id
    ensures o.Ok? ==> o.value in db.tables && o.value.id == id
  {
    match FindTable(db.tables, id)
    case None => NotFound
    case Some(k) => Ok(db.tables[k])
  }

  /** A single get finds an id exactly when the listing contains a table with it. */
  lemma GetAgreesWithList(db: Database, id: int)
    ensures GetTable(db, id).Ok? <==> exists t :: t in GetTables(db) && t.id == id
  {
  }

  /**
   * `POST /tables`. A request the schema rejects, or whose name some stored
   * table already has, leaves the store unchanged; otherwise exactly one table
   * with a fresh id echoing name, seats and location is appended.
   */
  method CreateTable(db: Database, req: TableRequest) returns (o: Outcome<Table>)
    requires db.Valid()
    modifies db
    ensures db.Valid()
    ensures db.reservations == old(db.reservations) && db.nextReservationId == old(db.nextReservationId)
    ensures ParseCreate(req).Failure? ==> o == Invalid(ParseCreate(req).error) && unchanged(db)
    ensures ParseCreate(req).Success? ==>
      if exists t :: t in old(db.tables) && t.name == req.name then
        o == Conflict && unchanged(db)
      else
        && o == Ok(Table(old(db.nextTableId), req.name, req.seats, req.location))
        && db.tables == old(db.tables) + [o.value]
        && db.nextTableId == old(db.nextTableId) + 1
        && (forall t :: t in old(db.tables) ==> t.id != o.value.id)
  {
    var parsed := ParseCreate(req);
    if parsed.Failure? {
      return Invalid(parsed.error);
    }
    var c := parsed.value;
    var existing := FindTableByName(db.tables, c.name);
    if existing.Some? {
      assert db.tables[existing.value] in db.tables;
      return Conflict;
    }
    var created := Table(db.nextTableId, c.name, c.seats, c.location);
    ghost var before := db.tables;
    db.tables := db.tables + [created];
    db.nextTableId := db.nextTableId + 1;
    assert forall t :: t in db.tables ==> t in before || t == created;
    o := Ok(created);
  }

  /**
   * `PUT /tables/{id}`, a partial update: rewrites only the supplied fields of
   * that one table. There is no name-uniqueness check, so it never reports
   * Conflict and succeeds whenever the request is valid and the id exists.
   */
  method UpdateTable(db: Database, id: int, upd: TableUpdate) returns (o: Outcome<Table>)
    requires db.Valid()
    modifies db
    ensures db.Valid()
    ensures db.reservations == old(db.reservations) && db.nextReservationId == old(db.nextReservationId)
    ensures db.nextTableId == old(db.nextTableId)
    ensures UpdateErrors(upd) != [] ==> o == Invalid(UpdateErrors(upd)) && unchanged(db)
    ensures UpdateErrors(upd) == [] && FindTable(old(db.tables), id).None? ==> o == NotFound && unchanged(db)
    ensures UpdateErrors(upd) == [] && FindTable(old(db.tables), id).Some? ==>
      var k := FindTable(old(db.tables), id).value;
      o == Ok(Merge(old(db.tables)[k], upd)) && db.tables == old(db.tables)[k := o.value]
    ensures !o.Conflict?
  {
    var errors := UpdateErrors(upd);
    if errors != [] {
      return Invalid(errors);
    }
    var found := FindTable(db.tables, id);
    if found.None? {
      return NotFound;
    }
    var k := found.value;
    var table := SetAttrLoop(db.tables[k], UpdateData(upd), SetAttr);
    SetAttrLoopIsMerge(db.tables[k], upd);
    ReplacingKeepsKeys(db.tables, k, table, db.nextTableId);
    db.tables := db.tables[k := table];
    o := Ok(table);
  }

  /**
   * `DELETE /tables/{id}`: removes exactly that table, after which no stored
   * table has the id; reservations that reference it are left as they are.
   */
  method DeleteTable(db: Database, id: int) returns (o: Outcome<()>)
    requires db.Valid()
    modifies db
    ensures db.Valid()
    ensures db.reservations == old(db.reservations) && db.nextReservationId == old(db.nextReservationId)
    ensures db.nextTableId == old(db.nextTableId)
    ensures FindTable(old(db.tables), id).None? ==> o == NotFound && unchanged(db)
    ensures FindTable(old(db.tables), id).Some? ==>
      var k := FindTable(old(db.tables), id).value;
      o == Ok(()) && db.tables == old(db.tables)[..k] + old(db.tables)[k + 1..]
    ensures GetTable(db, id) == NotFound
  {
    var found := FindTable(db.tables, id);
    if found.None? {
      return NotFound;
    }
    var k := found.value;
    FoundTableIsOnly(db.tables, id);
    ghost var before := db.tables;
    db.tables := db.tables[..k] + db.tables[k + 1..];
    assert forall j :: 0 <= j < |db.tables| ==> db.tables[j] == before[if j < k then j else j + 1];
    o := Ok(());
  }
}
