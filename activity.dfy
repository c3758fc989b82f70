/**
  The session state and the correlated write of MainActivity: the
  isCollecting flag, the two event subscriptions (reduced to flags), the
  database handle and satelliteDataBuffer.
 */
module Activity {
  import opened Wrappers
  import opened Schema
  import opened Store

  /** The part of the activity's state that stopCollecting reads and writes. */
  datatype SessionView = SessionView(
    collecting: bool,
    gnssCallbackSet: bool, gnssRegistered: bool,
    listenerSet: bool, locationRegistered: bool,
    hasDatabase: bool, databaseOpen: bool)

  /** A registration needs its callback object; a closed-or-open handle needs a handle. */
  predicate Consistent(v: SessionView) {
    && (v.gnssRegistered ==> v.gnssCallbackSet)
    && (v.locationRegistered ==> v.listenerSet)
    && (v.databaseOpen ==> v.hasDatabase)
  }

  /**
    The stop transition: from Collecting to idle with both event sources
    deregistered and the handle closed; from idle nothing happens.
   */
  function Stop(v: SessionView): (w: SessionView)
    ensures !w.collecting
    ensures !v.collecting ==> w == v
    ensures v.collecting && Consistent(v) ==> !w.gnssRegistered && !w.locationRegistered && !w.databaseOpen
    ensures Consistent(v) ==> Consistent(w)
    ensures w.gnssCallbackSet == v.gnssCallbackSet && w.listenerSet == v.listenerSet && w.hasDatabase == v.hasDatabase
  {
    if !v.collecting then v
    else v.(collecting := false,
            gnssRegistered := if v.gnssCallbackSet then false else v.gnssRegistered,
            locationRegistered := if v.listenerSet then false else v.locationRegistered,
            databaseOpen := if v.hasDatabase then false else v.databaseOpen)
  }

  /** A second stop leaves the state one stop left. */
  lemma StopIdempotent(v: SessionView)
    ensures Stop(Stop(v)) == Stop(v)
  {
  }

  /**
    How insertDataAsTransaction ends: the transaction committed (with the
    id given to the location row), it was rolled back after an exception
    inside the try, or beginTransaction itself raised and the exception
    left the method.
   */
  datatype TxOutcome = Committed(locationId: int) | RolledBack | Raised

  /** No insert statement 0..n raises: `failAt` is the ordinal of the one that does, if any. */
  predicate NoFaultUpTo(failAt: Option<nat>, n: nat) {
    failAt.None? || failAt.value > n
  }

  class MainActivity {
    var isCollecting: bool
    /** gnssCallback != null, and whether it is registered with the LocationManager. */
    var gnssCallbackSet: bool
    var gnssRegistered: bool
    /** locationListener != null, and whether it receives location updates. */
    var locationListenerSet: bool
    var locationRegistered: bool
    var database: Database?
    var satelliteDataBuffer: seq<SatelliteEntry>

    /**
      Between operations no transaction is open, no two rows of a table
      share an id, and every stored satellite row names an existing
      location row.
     */
    ghost predicate Valid()
      reads this, database
    {
      && (gnssRegistered ==> gnssCallbackSet)
      && (locationRegistered ==> locationListenerSet)
      && (database != null ==>
            database.Valid() && !database.inTransaction
            && RefIntegrity(database.tables) && KeysUnique(database.tables))
    }

    ghost function View(): SessionView
      reads this, database
    {
      SessionView(isCollecting, gnssCallbackSet, gnssRegistered, locationListenerSet, locationRegistered,
                  database != null, database != null && database.isOpen)
    }

    /** The field initialisers, with the handle that onCreate opens. */
    constructor (db: Database)
      requires db.Valid() && !db.inTransaction && RefIntegrity(db.tables) && KeysUnique(db.tables)
      ensures Valid() && database == db && satelliteDataBuffer == []
      ensures !isCollecting && !gnssCallbackSet && !gnssRegistered && !locationListenerSet && !locationRegistered
    {
      isCollecting := false;
      gnssCallbackSet, gnssRegistered := false, false;
      locationListenerSet, locationRegistered := false, false;
      database := db;
      satelliteDataBuffer := [];
    }

    /** stopCollecting: the guarded Collecting-to-idle transition. */
    method StopCollecting()
      requires Valid()
      modifies this`isCollecting, this`gnssRegistered, this`locationRegistered, database
      ensures Valid()
      ensures View() == Stop(old(View()))
      ensures !old(isCollecting) ==> unchanged(this) && (database != null ==> unchanged(database))
      ensures database != null ==> database.tables == old(database.tables)
    {
      if !isCollecting {
        return;
      }
      isCollecting := false;
      if gnssCallbackSet {
        gnssRegistered := false;
      }
      if locationListenerSet {
        locationRegistered := false;
      }
      if database != null {
        database.Close();
      }
    }

    /**
      insertDataAsTransaction: one location row and one satellite row per
      buffered entry, all or nothing. `beginFault` says the engine fails
      BEGIN itself. Statement 0 is the location insert and statement k the
      insert of the k-th buffered entry; `failAt` names the statement the
      storage engine fails, if any.
     */
    method InsertDataAsTransaction(timestamp: string, latitude: real, longitude: real, accuracy: real,
                                   beginFault: bool, failAt: Option<nat>) returns (outcome: TxOutcome)
      requires Valid()
      modifies this`satelliteDataBuffer, database
      ensures Valid()
      ensures outcome.Raised? <==> old(database) == null || !old(database.isOpen) || beginFault
      ensures outcome.Raised? ==> satelliteDataBuffer == old(satelliteDataBuffer)
      ensures outcome.Raised? && database != null ==> unchanged(database)
      ensures !outcome.Raised? ==> satelliteDataBuffer == [] && database.isOpen
      ensures outcome.Committed? <==>
        !outcome.Raised? && Writable(old(database.tables)) && NoFaultUpTo(failAt, |old(satelliteDataBuffer)|)
      ensures outcome.Committed? ==>
        && outcome.locationId == old(database.tables).locationSeq + 1
        && database.tables == RecordFix(old(database.tables), Fix(timestamp, latitude, longitude, accuracy),
                                        old(satelliteDataBuffer))
      ensures outcome.RolledBack? ==> database.tables == old(database.tables)
    {
      if database == null {
        return Raised;
      }
      outcome := Transact(database, Fix(timestamp, latitude, longitude, accuracy), satelliteDataBuffer,
                          beginFault, failAt);
      if !outcome.Raised? {
        // finally (the second half; endTransaction is in Transact)
        satelliteDataBuffer := [];
      }
    }
  }

  /**
    The write on the handle: beginTransaction, outside the try, then the
    transaction itself. A BEGIN that raises leaves the handle as it was.
   */
  method Transact(db: Database, fix: Fix, buffer: seq<SatelliteEntry>, beginFault: bool, failAt: Option<nat>)
    returns (outcome: TxOutcome)
    requires db.Valid() && !db.inTransaction && RefIntegrity(db.tables) && KeysUnique(db.tables)
    modifies db
    ensures db.Valid() && !db.inTransaction && RefIntegrity(db.tables) && KeysUnique(db.tables)
    ensures outcome.Raised? <==> !old(db.isOpen) || beginFault
    ensures outcome.Raised? ==> unchanged(db)
    ensures !outcome.Raised? ==> db.isOpen
    ensures outcome.Committed? <==> !outcome.Raised? && Writable(old(db.tables)) && NoFaultUpTo(failAt, |buffer|)
    ensures outcome.Committed? ==>
      outcome.locationId == old(db.tables).locationSeq + 1 && db.tables == RecordFix(old(db.tables), fix, buffer)
    ensures outcome.RolledBack? ==> db.tables == old(db.tables)
  {
    var began := db.BeginTransaction(beginFault);
    if !began {
      return Raised;
    }
    var committed, locationId := RunTransaction(db, fix, buffer, failAt);
    outcome := if committed then Committed(locationId) else RolledBack;
  }

  /**
    The transaction once BEGIN has succeeded: the try block, the success
    mark when it completes, and endTransaction in the finally block. The
    stored tables keep referential integrity and unique keys either way.
   */
  method RunTransaction(db: Database, fix: Fix, buffer: seq<SatelliteEntry>, failAt: Option<nat>)
    returns (committed: bool, locationId: int)
    requires db.Valid() && db.isOpen && db.inTransaction && !db.markedSuccessful && db.saved == db.tables
    requires RefIntegrity(db.tables) && KeysUnique(db.tables)
    modifies db`tables, db`lastInsertRowid, db`markedSuccessful, db`inTransaction
    ensures db.Valid() && !db.inTransaction && RefIntegrity(db.tables) && KeysUnique(db.tables)
    ensures committed <==> Writable(old(db.tables)) && NoFaultUpTo(failAt, |buffer|)
    ensures committed ==> locationId == old(db.tables).locationSeq + 1 && db.tables == RecordFix(old(db.tables), fix, buffer)
    ensures !committed ==> db.tables == old(db.tables)
  {
    ghost var before := db.tables;
    // try
    committed, locationId := WriteRows(db, fix, buffer, failAt);
    if committed {
      RecordFixKeepsIntegrity(before, fix, buffer);
      RecordFixKeepsKeysUnique(before, fix, buffer);
      db.SetTransactionSuccessful();
    }
    // finally
    db.EndTransaction();
  }

  /**
    The body of the try block of insertDataAsTransaction, inside an open
    transaction: insert the location row, read its id back, compile the
    satellite insert, then insert the satellite rows. `done` says no
    statement raised.
   */
  method WriteRows(db: Database, fix: Fix, buffer: seq<SatelliteEntry>, failAt: Option<nat>)
    returns (done: bool, locationId: int)
    requires db.Valid() && db.isOpen && db.inTransaction && !db.markedSuccessful
    modifies db`tables, db`lastInsertRowid
    ensures db.Valid()
    ensures done <==> Writable(old(db.tables)) && NoFaultUpTo(failAt, |buffer|)
    ensures done ==> locationId == old(db.tables).locationSeq + 1 && db.tables == RecordFix(old(db.tables), fix, buffer)
  {
    locationId := 0;
    var ok := db.InsertLocation(fix, failAt == Some(0));
    if !ok {
      return false, locationId;
    }
    locationId := db.QueryLastInsertRowid();
    ok := db.CompileSatelliteInsert();
    if !ok {
      return false, locationId;
    }
    done := InsertSatellites(db, buffer, locationId, failAt);
  }

  /**
    The statement loop: binds each buffered entry, in order, with
    `locationId` and executes the compiled insert; the first statement that
    raises ends the loop.
   */
  method InsertSatellites(db: Database, buffer: seq<SatelliteEntry>, locationId: int, failAt: Option<nat>)
    returns (done: bool)
    requires db.Valid() && db.isOpen && db.tables.hasSatelliteTable && failAt != Some(0)
    modifies db`tables, db`lastInsertRowid
    ensures db.Valid()
    ensures done <==> NoFaultUpTo(failAt, |buffer|)
    ensures done ==> db.tables == AppendSatellites(old(db.tables), buffer, locationId)
  {
    ghost var start := db.tables;
    var i: nat := 0;
    while i < |buffer|
      invariant i <= |buffer|
      invariant db.Valid() && db.tables.hasSatelliteTable
      invariant db.tables == AppendSatellites(start, buffer[..i], locationId)
      invariant NoFaultUpTo(failAt, i)
    {
      var ok := db.ExecuteSatelliteInsert(buffer[i], locationId, failAt == Some(i + 1));
      if !ok {
        return false;
      }
      assert buffer[..i + 1][..i] == buffer[..i];
      i := i + 1;
    }
    assert buffer[..i] == buffer;
    done := true;
  }
}
