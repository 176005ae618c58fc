/** The SQLite inventory table of database.py, kept as a map from the
    UNIQUE productID column to the rest of the row. The same CRUD functions
    appear, line for line, in
    Barcode_Scanner_Video_Processing_database/database_website.py and
    InventoryManagementSystem/database_scientific_computing_concepts.py,
    which add reset_inventory. */
module Inventory {
  import opened Wrappers

  /** The columns a caller supplies besides productID. */
  datatype Fields = Fields(category: string, name: string, price: real, quantity: int, returnPeriod: int)

  /** A row: the AUTOINCREMENT id column and the supplied columns. */
  datatype Row = Row(rowId: nat, fields: Fields)

  /** The database file: whether the inventory table exists, its rows by
      productID, and the AUTOINCREMENT high-water mark SQLite keeps for it. */
  datatype Db = Db(tableExists: bool, rows: map<string, Row>, lastRowId: nat)

  /** sqlite3.OperationalError("no such table: inventory"), raised by every
      statement on a database whose table has not been created. */
  datatype DbError = NoSuchTable

  /** The table invariant: no rows without a table, and the id column is
      unique and never above the high-water mark. */
  ghost predicate WellFormed(db: Db)
  {
    && (!db.tableExists ==> db.rows == map[] && db.lastRowId == 0)
    && (forall id :: id in db.rows ==> 1 <= db.rows[id].rowId <= db.lastRowId)
    && (forall a, b :: a in db.rows && b in db.rows && a != b ==> db.rows[a].rowId != db.rows[b].rowId)
  }

  /** CREATE TABLE IF NOT EXISTS inventory (...). */
  function Initialized(db: Db): (r: Db)
    ensures r.tableExists && r.rows == db.rows
    ensures WellFormed(db) ==> WellFormed(r)
  {
    if db.tableExists then db else db.(tableExists := true)
  }

  /** INSERT INTO inventory: a new productID gets the next row id; a
      duplicate violates UNIQUE, the IntegrityError is swallowed and the
      table is left as it was. */
  function Inserted(db: Db, id: string, f: Fields): (r: Db)
    requires db.tableExists
    ensures r.tableExists
    ensures id in db.rows ==> r == db
    ensures id !in db.rows ==> r.rows.Keys == db.rows.Keys + {id} && r.rows[id].fields == f
    ensures forall k :: k in db.rows ==> k in r.rows && r.rows[k] == db.rows[k]
    ensures WellFormed(db) ==> WellFormed(r)
  {
    if id in db.rows then db
    else db.(rows := db.rows[id := Row(db.lastRowId + 1, f)], lastRowId := db.lastRowId + 1)
  }

  /** update_quantity: read the quantity, add the change (no lower bound),
      write it back; a missing productID changes nothing. */
  function QuantityChanged(db: Db, id: string, change: int): (r: Db)
    ensures r.tableExists == db.tableExists && r.lastRowId == db.lastRowId
    ensures r.rows.Keys == db.rows.Keys
    ensures id in db.rows ==>
      && r.rows[id].fields.quantity == db.rows[id].fields.quantity + change
      && r.rows[id] == db.rows[id].(fields := r.rows[id].fields)
      && r.rows[id].fields == db.rows[id].fields.(quantity := r.rows[id].fields.quantity)
    ensures id !in db.rows ==> r == db
    ensures forall k :: k in db.rows && k != id ==> r.rows[k] == db.rows[k]
    ensures WellFormed(db) ==> WellFormed(r)
  {
    if id in db.rows then
      var row := db.rows[id];
      db.(rows := db.rows[id := row.(fields := row.fields.(quantity := row.fields.quantity + change))])
    else db
  }

  /** DELETE FROM inventory WHERE productID = id. */
  function Deleted(db: Db, id: string): (r: Db)
    ensures r.tableExists == db.tableExists && r.lastRowId == db.lastRowId
    ensures r.rows.Keys == db.rows.Keys - {id}
    ensures forall k :: k in r.rows ==> r.rows[k] == db.rows[k]
    ensures id !in db.rows ==> r == db
    ensures WellFormed(db) ==> WellFormed(r)
  {
    db.(rows := db.rows - {id})
  }

  /** SELECT * FROM inventory WHERE productID = id: the row, or None. */
  function Lookup(db: Db, id: string): (r: Option<Row>)
    ensures r.Some? <==> id in db.rows
    ensures r.Some? ==> r.value == db.rows[id]
  {
    if id in db.rows then Some(db.rows[id]) else None
  }

  /** reset_inventory: DROP TABLE IF EXISTS, which also drops the table's
      AUTOINCREMENT counter, then CREATE TABLE again. */
  function Emptied(db: Db): (r: Db)
    ensures r.tableExists && r.rows == map[] && WellFormed(r)
  {
    Db(true, map[], 0)
  }

  /** Creating the schema twice leaves the table as creating it once. */
  lemma InitializeIdempotent(db: Db)
    ensures Initialized(Initialized(db)) == Initialized(db)
  {
  }

  /** Deleting a freshly inserted product restores the table's rows. */
  lemma InsertThenDelete(db: Db, id: string, f: Fields)
    requires db.tableExists && id !in db.rows
    ensures Deleted(Inserted(db, id, f), id).rows == db.rows
    ensures Lookup(Deleted(Inserted(db, id, f), id), id) == None
  {
    assert Deleted(Inserted(db, id, f), id).rows.Keys == db.rows.Keys;
  }

  /** A quantity change followed by the opposite change restores the table. */
  lemma ChangeThenRevert(db: Db, id: string, change: int)
    ensures QuantityChanged(QuantityChanged(db, id, change), id, -change) == db
  {
    if id in db.rows {
      var r := QuantityChanged(QuantityChanged(db, id, change), id, -change);
      assert r.rows[id] == db.rows[id];
      assert r.rows == db.rows;
    }
  }

  /** The call sequence of database_test_functions.py on a table without
      product "12345": add, search, update by +3, remove. The search finds
      the row with quantity 87, the update makes it 90, and the removal
      deletes one row and leaves the rest of the table as it was. */
  lemma TestScriptTrace(db: Db)
    requires db.tableExists && "12345" !in db.rows
    ensures var f := Fields("Electronics", "Iphone", 700.78, 87, 30);
      var added := Inserted(db, "12345", f);
      var updated := QuantityChanged(added, "12345", 3);
      && Lookup(added, "12345") == Some(Row(db.lastRowId + 1, f))
      && Lookup(updated, "12345") == Some(Row(db.lastRowId + 1, f.(quantity := 90)))
      && "12345" in updated.rows
      && Deleted(updated, "12345").rows == db.rows
  {
    var f := Fields("Electronics", "Iphone", 700.78, 87, 30);
    var added := Inserted(db, "12345", f);
    var updated := QuantityChanged(added, "12345", 3);
    assert Deleted(updated, "12345").rows.Keys == db.rows.Keys;
  }

  /** The inventory table behind database.py's module-level functions. */
  class Store {
    var tableExists: bool
    var rows: map<string, Row>
    var lastRowId: nat

    function State(): Db
      reads this
    {
      Db(tableExists, rows, lastRowId)
    }

    ghost predicate Valid()
      reads this
    {
      WellFormed(State())
    }

    /** A database file in which initialize_database has not run yet. */
    constructor ()
      ensures Valid() && State() == Db(false, map[], 0)
    {
      tableExists, rows, lastRowId := false, map[], 0;
    }

    /** initialize_database. */
    method InitializeDatabase()
      requires Valid()
      modifies this
      ensures Valid() && State() == Initialized(old(State()))
    {
      tableExists := true;
    }

    /** add_product: Ok(true) when the row was inserted, Ok(false) when
        the productID already existed and the IntegrityError was swallowed. */
    method AddProduct(category: string, productID: string, name: string, price: real, quantity: int, returnPeriod: int)
      returns (r: Result<bool, DbError>)
      requires Valid()
      modifies this
      ensures Valid()
      ensures !old(tableExists) ==> r == Err(NoSuchTable) && State() == old(State())
      ensures old(tableExists) ==> r == Ok(productID !in old(rows))
      ensures old(tableExists) ==>
        State() == Inserted(old(State()), productID, Fields(category, name, price, quantity, returnPeriod))
    {
      if !tableExists {
        return Err(NoSuchTable);
      }
      if productID in rows {
        return Ok(false);
      }
      lastRowId := lastRowId + 1;
      rows := rows[productID := Row(lastRowId, Fields(category, name, price, quantity, returnPeriod))];
      r := Ok(true);
    }

    /** update_quantity: Ok(Some(q)) with the new quantity q, Ok(None) when
        no row has that productID. */
    method UpdateQuantity(productID: string, change: int) returns (r: Result<Option<int>, DbError>)
      requires Valid()
      modifies this
      ensures Valid()
      ensures !old(tableExists) ==> r == Err(NoSuchTable) && State() == old(State())
      ensures old(tableExists) ==> State() == QuantityChanged(old(State()), productID, change)
      ensures old(tableExists) && productID in old(rows) ==> r == Ok(Some(old(rows)[productID].fields.quantity + change))
      ensures old(tableExists) && productID !in old(rows) ==> r == Ok(None)
    {
      if !tableExists {
        return Err(NoSuchTable);
      }
      if productID in rows {
        var row := rows[productID];
        var newQuantity := row.fields.quantity + change;
        rows := rows[productID := row.(fields := row.fields.(quantity := newQuantity))];
        r := Ok(Some(newQuantity));
      } else {
        r := Ok(None);
      }
    }

    /** remove_product: the DELETE's row count, 1 when the product was
        there and 0 when it was not. */
    method RemoveProduct(productID: string) returns (r: Result<nat, DbError>)
      requires Valid()
      modifies this
      ensures Valid()
      ensures !old(tableExists) ==> r == Err(NoSuchTable) && State() == old(State())
      ensures old(tableExists) ==> State() == Deleted(old(State()), productID)
      ensures old(tableExists) ==> r == Ok(if productID in old(rows) then 1 else 0)
    {
      if !tableExists {
        return Err(NoSuchTable);
      }
      r := Ok(if productID in rows then 1 else 0);
      rows := rows - {productID};
    }

    /** search_product: read-only lookup of one row. */
    method SearchProduct(productID: string) returns (r: Result<Option<Row>, DbError>)
      requires Valid()
      ensures !tableExists ==> r == Err(NoSuchTable)
      ensures tableExists ==> r == Ok(Lookup(State(), productID))
    {
      if !tableExists {
        return Err(NoSuchTable);
      }
      r := Ok(if productID in rows then Some(rows[productID]) else None);
    }

    /** get_all_products: read-only. The rows it would print are returned
        as the result, standing in for the printout. */
    method GetAllProducts() returns (r: Result<map<string, Row>, DbError>)
      requires Valid()
      ensures !tableExists ==> r == Err(NoSuchTable)
      ensures tableExists ==> r == Ok(rows)
    {
      if !tableExists {
        return Err(NoSuchTable);
      }
      r := Ok(rows);
    }

    /** reset_inventory of database_website.py and
        database_scientific_computing_concepts.py. */
    method ResetInventory()
      requires Valid()
      modifies this
      ensures Valid() && State() == Emptied(old(State()))
    {
      tableExists, rows, lastRowId := true, map[], 0;
    }
  }
}
