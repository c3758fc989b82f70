/**
  The SQLiteDatabase handle the activity writes through, reduced to what the
  core uses: open/closed, the two tables, a single (non-nested) transaction
  kept as a snapshot of the tables taken at begin, and last_insert_rowid().
  A statement that the storage engine fails (I/O error, full disk, a
  constraint) is chosen by the caller through a `fault` argument.
  Foreign keys are not enforced: SQLite leaves them off unless a PRAGMA
  turns them on, and the helper issues none.
 */
module Store {
  import opened Schema

  class Database {
    var isOpen: bool
    var tables: Tables
    var inTransaction: bool
    var markedSuccessful: bool
    /** The tables as they were when the open transaction began. */
    var saved: Tables
    var lastInsertRowid: int

    ghost predicate Valid()
      reads this
    {
      WellFormed(tables) && (inTransaction ==> WellFormed(saved))
    }

    /** An open connection to a file holding `stored`. */
    constructor Open(stored: Tables)
      requires WellFormed(stored)
      ensures Valid() && isOpen && !inTransaction && tables == stored
    {
      isOpen := true;
      tables := stored;
      inTransaction := false;
      markedSuccessful := false;
      saved := stored;
      lastInsertRowid := 0;
    }

    /** close(): later statements on this handle raise. */
    method Close()
      modifies this`isOpen
      ensures !isOpen
    {
      isOpen := false;
    }

    /**
      beginTransaction(): raises on a closed handle or when the engine fails
      BEGIN EXCLUSIVE (`fault`: a lock held by another connection, an I/O
      error); otherwise remembers the tables.
     */
    method BeginTransaction(fault: bool) returns (ok: bool)
      requires Valid() && !inTransaction
      modifies this`inTransaction, this`markedSuccessful, this`saved
      ensures Valid()
      ensures ok == (old(isOpen) && !fault)
      ensures ok ==> inTransaction && !markedSuccessful && saved == tables
      ensures !ok ==> unchanged(this)
    {
      ok := isOpen && !fault;
      if ok {
        inTransaction, markedSuccessful, saved := true, false, tables;
      }
    }

    /** setTransactionSuccessful(): the open transaction will commit. */
    method SetTransactionSuccessful()
      requires inTransaction
      modifies this`markedSuccessful
      ensures markedSuccessful
    {
      markedSuccessful := true;
    }

    /** endTransaction(): commits if marked successful, otherwise restores the snapshot. */
    method EndTransaction()
      requires Valid() && inTransaction
      modifies this`tables, this`inTransaction
      ensures Valid() && !inTransaction
      ensures tables == if old(markedSuccessful) then old(tables) else old(saved)
    {
      if !markedSuccessful {
        tables := saved;
      }
      inTransaction := false;
    }

    /** execSQL("INSERT INTO location_record ..."): succeeds unless the handle is closed, the table is missing or the engine fails. */
    method InsertLocation(fix: Fix, fault: bool) returns (ok: bool)
      requires Valid()
      modifies this`tables, this`lastInsertRowid
      ensures Valid()
      ensures ok == (isOpen && old(tables).hasLocationTable && !fault)
      ensures ok ==> tables == AppendLocation(old(tables), fix) && lastInsertRowid == old(tables).locationSeq + 1
      ensures !ok ==> tables == old(tables) && lastInsertRowid == old(lastInsertRowid)
    {
      ok := isOpen && tables.hasLocationTable && !fault;
      if ok {
        tables := AppendLocation(tables, fix);
        lastInsertRowid := tables.locationSeq;
      }
    }

    /** SELECT last_insert_rowid(): the id of the row most recently inserted on this handle. */
    method QueryLastInsertRowid() returns (id: int)
      requires isOpen
      ensures id == lastInsertRowid
    {
      id := lastInsertRowid;
    }

    /** compileStatement("INSERT INTO satellite_info ..."): fails if the handle is closed or the table is missing. */
    method CompileSatelliteInsert() returns (ok: bool)
      ensures ok <==> isOpen && tables.hasSatelliteTable
    {
      ok := isOpen && tables.hasSatelliteTable;
    }

    /** execute() of the compiled satellite insert with its six bound values. */
    method ExecuteSatelliteInsert(e: SatelliteEntry, locationId: int, fault: bool) returns (ok: bool)
      requires Valid()
      modifies this`tables, this`lastInsertRowid
      ensures Valid()
      ensures ok == (isOpen && old(tables).hasSatelliteTable && !fault)
      ensures ok ==> tables == AppendSatellite(old(tables), e, locationId) && lastInsertRowid == tables.satelliteSeq
      ensures !ok ==> tables == old(tables) && lastInsertRowid == old(lastInsertRowid)
    {
      ok := isOpen && tables.hasSatelliteTable && !fault;
      if ok {
        tables := AppendSatellite(tables, e, locationId);
        lastInsertRowid := tables.satelliteSeq;
      }
    }

    /** execSQL("CREATE TABLE ..."): raises if the handle is closed or the table already exists. */
    method ExecCreateTable(name: TableName) returns (ok: bool)
      requires Valid()
      modifies this`tables
      ensures Valid()
      ensures ok == (isOpen && !HasTable(old(tables), name))
      ensures tables == if ok then CreateTable(old(tables), name) else old(tables)
    {
      ok := isOpen && !HasTable(tables, name);
      if ok {
        tables := CreateTable(tables, name);
      }
    }

    /** execSQL("DROP TABLE IF EXISTS ..."): raises only if the handle is closed. */
    method ExecDropTableIfExists(name: TableName) returns (ok: bool)
      requires Valid()
      modifies this`tables
      ensures Valid()
      ensures ok == isOpen
      ensures tables == if ok then DropTable(old(tables), name) else old(tables)
    {
      ok := isOpen;
      if ok {
        tables := DropTable(tables, name);
      }
    }
  }

  /** The SQLiteOpenHelper callbacks that lay out the schema. */
  class DatabaseHelper {

    constructor () {}

    /**
      onCreate: creates location_record, then satellite_info. An exception
      from the first statement stops the second; `ok` is false when one
      escapes.
     */
    method OnCreate(db: Database) returns (ok: bool)
      requires db.Valid()
      modifies db`tables
      ensures db.Valid()
      ensures ok <==> old(db.isOpen) && !old(db.tables).hasLocationTable && !old(db.tables).hasSatelliteTable
      ensures ok ==> db.tables == EmptyTables
      ensures !ok && !old(db.tables).hasLocationTable && old(db.isOpen) ==>
        db.tables == CreateTable(old(db.tables), LocationRecord)
      ensures !ok && (old(db.tables).hasLocationTable || !old(db.isOpen)) ==> db.tables == old(db.tables)
    {
      ok := db.ExecCreateTable(LocationRecord);
      if ok {
        ok := db.ExecCreateTable(SatelliteInfo);
      }
    }

    /**
      onUpgrade: drops both tables if present and creates them again; the
      version numbers are not consulted. On an open handle the result is
      two empty tables whatever was stored before.
     */
    method OnUpgrade(db: Database, oldVersion: int, newVersion: int) returns (ok: bool)
      requires db.Valid()
      modifies db`tables
      ensures db.Valid()
      ensures ok == old(db.isOpen)
      ensures ok ==> db.tables == EmptyTables
      ensures !ok ==> db.tables == old(db.tables)
    {
      ok := db.ExecDropTableIfExists(LocationRecord);
      if !ok {
        return;
      }
      ok := db.ExecDropTableIfExists(SatelliteInfo);
      ok := OnCreate(db);
    }
  }
}
