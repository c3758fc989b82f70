# GNSS logger core: session stop, correlated transactional write, schema

A Dafny model of the logic inside `MainActivity` of the lunar-G/GNSS Android
logger. The activity collects satellite observations into
`satelliteDataBuffer` and, for each position fix, writes one `location_record`
row plus one `satellite_info` row per buffered satellite in a single SQLite
transaction. The model covers four pieces:

- **Constellation classification** (`constellation.dfy`, module
  `Constellation`). `getSatelliteType` is a total function from a
  `GnssStatus` constellation code to one of eight names. `CodeOf` is its
  inverse on the seven named codes.
- **The store** (`schema.dfy`, `store.dfy`). The two tables are values
  (`Schema.Tables`). Each table has an AUTOINCREMENT sequence counter, and a
  flag says whether the table exists. The write is specified by pure functions
  (`AppendLocation`, `AppendSatellite`, `AppendSatellites`, `RecordFix`), and
  lemmas prove what those functions do to the rows. `Store.Database` is the
  `SQLiteDatabase` handle as a class. It has an open flag. A transaction
  snapshots the tables at `beginTransaction`. `endTransaction` commits only if
  `setTransactionSuccessful` was called and otherwise restores the snapshot.
  `last_insert_rowid()` is a field. `Store.DatabaseHelper` holds
  `onCreate`/`onUpgrade`.
- **The correlated write** (`activity.dfy`,
  `MainActivity.InsertDataAsTransaction`). It is imperative, like the source.
  It begins the transaction, inserts the location row, reads the id back,
  compiles the satellite insert, loops over the buffer, marks success, ends the
  transaction and clears the buffer.
- **The stop transition** (`MainActivity.StopCollecting`, with the pure
  `Stop` on a `SessionView`).

Storage failures are inputs. `beginFault` says the engine fails
`BEGIN EXCLUSIVE` itself, for example on a lock held by another connection or
an I/O error. Statement 0 is the location insert and statement k is the
insert for the k-th buffered satellite. The argument `failAt` names the
statement the storage engine fails, if any. A statement also fails when its
table is missing or the handle is closed.

`MainActivity.Valid()` is the application invariant. Between operations no
transaction is open, no two rows of a table share an id, and every
`satellite_info.location_id` names an existing `location_record.id`. SQLite
does not enforce the `FOREIGN KEY` clause unless `PRAGMA foreign_keys` turns it
on, and the source never does. So referential integrity is something the code
must keep, and the model proves it does.

Some things the code does not do:

- `stopCollecting` does not clear `satelliteDataBuffer`. The buffer is emptied
  only by `insertDataAsTransaction`.
- `beginTransaction()` (line 84) is outside the `try`. On a closed or missing
  handle, or when the engine fails BEGIN, the exception leaves the method
  (outcome `Raised`). Then `endTransaction` is not called and the buffer is
  not cleared.
- `stopCollecting` closes the handle, and nothing in this file reopens it.
  After a stop, every later write raises.
- There are no defaults for a missing fix in the modelled code. The timestamp,
  latitude, longitude and accuracy are parameters of the write.

GnssStatus constellation codes take Android's published values (UNKNOWN 0,
GPS 1, SBAS 2, GLONASS 3, QZSS 4, BEIDOU 5, GALILEO 6). The proofs use only
the fact that these values are distinct.

## Model

| member | source | states |
|---|---|---|
| Constellation.SatelliteType | app/src/main/java/com/example/android/MainActivity.java:121-139 | total. The result is always one of the eight names. It is "Other" exactly when the code is none of the seven named constellations. It is one of the seven named results exactly when the code is named. |
| Constellation.CodeOf | app/src/main/java/com/example/android/MainActivity.java:121-139 | the inverse of the classification: a stored name maps back to a code that classifies to that same name. The name has no code exactly when it is not one of the seven specific names. |
| Constellation.ConstellationNames | app/src/main/java/com/example/android/MainActivity.java:122-136 | GPS, GLONASS, BEIDOU, GALILEO, QZSS, SBAS and UNKNOWN each map to their own name. |
| Constellation.SatelliteTypeRoundTrip | app/src/main/java/com/example/android/MainActivity.java:121-139 | on the named codes the classification is injective: the name gives back the code. |
| Schema.AppendLocation | app/src/main/java/com/example/android/MainActivity.java:87-88 | the location insert adds exactly one row after the existing ones. The row holds the given timestamp, latitude, longitude and accuracy, and its id is the old sequence counter + 1, which becomes the new counter. satellite_info (existence, rows, counter) is unchanged. It keeps the AUTOINCREMENT bounds and referential integrity. |
| Schema.SatelliteRowFor | app/src/main/java/com/example/android/MainActivity.java:101-106 | the six binds: the row carries the entry's five fields unchanged (the entry can be read back from the row), the given row id and the given location_id. |
| Schema.AppendSatellites | app/src/main/java/com/example/android/MainActivity.java:99-108 | the statement loop adds exactly \|buffer\| satellite rows and advances the satellite counter by \|buffer\|. location_record (existence, rows, counter) is unchanged. The per-row contents are stated by `AppendSatellitesRows`. |
| Schema.RecordFix | app/src/main/java/com/example/android/MainActivity.java:87-108 | the committed write adds exactly one location row and exactly \|buffer\| satellite rows, advancing each counter accordingly, and keeps which tables exist. The rows themselves are stated by `RecordFixLocationRow` and `RecordFixSatelliteRows`. |
| Schema.AppendSatellite | app/src/main/java/com/example/android/MainActivity.java:100-107 | one satellite insert appends exactly one row after the existing ones: its id is the next AUTOINCREMENT value, and it carries the entry's five fields and the bound location_id. The satellite counter advances by one and location_record (existence, rows, counter) is unchanged. It keeps the bounds, and keeps integrity when the parent exists. |
| Schema.NextLocationIdFresh | app/src/main/java/com/example/android/MainActivity.java:153 | the id AUTOINCREMENT hands out next belongs to no existing location_record row. |
| Schema.AppendSatellitesRows | app/src/main/java/com/example/android/MainActivity.java:99-108 | the loop's inserts add exactly \|buffer\| rows after the existing ones, in buffer order. Each row copies its entry's satellite_id, type, azimuth, elevation and snr, and carries the given location_id. location_record is untouched. |
| Schema.AppendSatellitesKeepsIntegrity | app/src/main/java/com/example/android/MainActivity.java:95-108 | inserting children of an existing parent keeps the tables well formed, and every location_id still names an existing row. |
| Schema.RecordFixLocationRow | app/src/main/java/com/example/android/MainActivity.java:87-92 | a committed write adds exactly one location_record row after the existing ones. The row holds the given timestamp, latitude, longitude and accuracy. Its id is the one last_insert_rowid() returns, and no pre-existing row has it. |
| Schema.RecordFixSatelliteRows | app/src/main/java/com/example/android/MainActivity.java:99-107 | a committed write adds exactly \|buffer\| satellite_info rows in buffer order. Each copies fields 0-4 of its entry. Every new row's location_id is the new location row's id. |
| Schema.RecordFixKeepsIntegrity | app/src/main/java/com/example/android/MainActivity.java:83-118 | a committed write preserves referential integrity and the AUTOINCREMENT bounds. |
| Schema.RecordFixKeepsLocationKeysUnique | app/src/main/java/com/example/android/MainActivity.java:153 | a committed write leaves no two location_record rows with the same id. |
| Schema.RecordFixKeepsSatelliteKeysUnique | app/src/main/java/com/example/android/MainActivity.java:155 | a committed write leaves no two satellite_info rows with the same id. |
| Schema.RecordFixKeepsKeysUnique | app/src/main/java/com/example/android/MainActivity.java:153-155 | a committed write keeps both primary keys unique. |
| Schema.DropTable | app/src/main/java/com/example/android/MainActivity.java:160-161 | DROP TABLE IF EXISTS: the table no longer exists, it holds no rows and its sequence counter is 0. The other table (existence, rows, counter) is unchanged. |
| Schema.CreateTable | app/src/main/java/com/example/android/MainActivity.java:153-155 | CREATE TABLE yields an existing, empty table whose sequence counter is 0, so its first id is 1. The other table (existence, rows, counter) is unchanged. |
| Store.Database.Open | app/src/main/java/com/example/android/MainActivity.java:48 | a freshly opened handle is open, with no transaction, over the stored tables. |
| Store.Database.Close | app/src/main/java/com/example/android/MainActivity.java:77-80 | closing leaves the handle closed. |
| Store.Database.BeginTransaction | app/src/main/java/com/example/android/MainActivity.java:84 | raises exactly when the handle is closed or the engine fails BEGIN, and then nothing changes. Otherwise it opens an unmarked transaction whose snapshot is the current tables. |
| Store.Database.SetTransactionSuccessful | app/src/main/java/com/example/android/MainActivity.java:110 | marks the open transaction for commit. |
| Store.Database.EndTransaction | app/src/main/java/com/example/android/MainActivity.java:115 | closes the transaction. It keeps the tables if the transaction was marked and otherwise restores the snapshot exactly. |
| Store.Database.InsertLocation | app/src/main/java/com/example/android/MainActivity.java:87-88 | succeeds exactly when the handle is open, the table exists and the engine does not fail. On success it appends the row and sets last_insert_rowid to its id. On failure it changes nothing. |
| Store.Database.QueryLastInsertRowid | app/src/main/java/com/example/android/MainActivity.java:91-92 | returns the id of the row most recently inserted on the handle. |
| Store.Database.CompileSatelliteInsert | app/src/main/java/com/example/android/MainActivity.java:95-96 | compiling the satellite insert fails exactly when the handle is closed or satellite_info is missing. |
| Store.Database.ExecuteSatelliteInsert | app/src/main/java/com/example/android/MainActivity.java:100-107 | succeeds exactly when the handle is open, the table exists and the engine does not fail. On success it appends the bound row. On failure it changes nothing. |
| Store.Database.ExecCreateTable | app/src/main/java/com/example/android/MainActivity.java:153-155 | raises when the handle is closed or the table already exists. Otherwise it creates the table empty. |
| Store.Database.ExecDropTableIfExists | app/src/main/java/com/example/android/MainActivity.java:160-161 | raises only on a closed handle. Otherwise the table is gone. |
| Store.DatabaseHelper.OnCreate | app/src/main/java/com/example/android/MainActivity.java:152-156 | on an open store with neither table, it creates two empty tables. If the first CREATE raises, nothing changes. If only the second raises, location_record alone has been created. |
| Store.DatabaseHelper.OnUpgrade | app/src/main/java/com/example/android/MainActivity.java:159-163 | on an open handle the result is both tables existing and empty, with counters reset, whatever was stored and whatever the versions. On a closed handle nothing changes. |
| Activity.Stop | app/src/main/java/com/example/android/MainActivity.java:61-81 | from collecting: idle, both event sources deregistered, the handle closed. From idle: no change at all. The subscription invariant is kept. |
| Activity.StopIdempotent | app/src/main/java/com/example/android/MainActivity.java:61-81 | a second stop leaves the same state as one. |
| Activity.MainActivity.constructor | app/src/main/java/com/example/android/MainActivity.java:27-35 | the field initialisers: idle, no callbacks, empty buffer, with the handle onCreate opens. |
| Activity.MainActivity.StopCollecting | app/src/main/java/com/example/android/MainActivity.java:61-81 | the new session state is `Stop` of the old one. When idle, neither the activity nor the handle changes. Stored rows are untouched. The invariant is kept. |
| Activity.MainActivity.InsertDataAsTransaction | app/src/main/java/com/example/android/MainActivity.java:83-118 | raises, leaving buffer and store unchanged, exactly when the handle is null or closed or BEGIN fails. Otherwise the buffer is empty on return. It commits exactly when both tables exist and no insert fails. A commit makes the tables `RecordFix` of the old tables, the fix and the old buffer, with the new location id = old sequence + 1. A rollback leaves the tables exactly as before. Referential integrity and key uniqueness are preserved. |
| Activity.Transact | app/src/main/java/com/example/android/MainActivity.java:84-115 | the write on an existing handle: raises, changing nothing, exactly when the handle is closed or BEGIN fails. Otherwise it commits exactly when both tables exist and no insert fails, giving `RecordFix` of the old tables with the new location id, and otherwise leaves the tables as they were. The handle stays open, no transaction is left open, and integrity and key uniqueness hold. |
| Activity.RunTransaction | app/src/main/java/com/example/android/MainActivity.java:85-115 | after a successful BEGIN: commits exactly when both tables exist and no insert fails, giving `RecordFix` of the old tables with the new location id. Otherwise the tables are exactly as before. Either way the transaction is closed, and integrity and key uniqueness hold. |
| Activity.WriteRows | app/src/main/java/com/example/android/MainActivity.java:85-110 | the try block: every statement succeeds exactly when both tables exist and no insert fails. Then the tables are `RecordFix` of the old ones, and the id read back is the new location row's id. |
| Activity.InsertSatellites | app/src/main/java/com/example/android/MainActivity.java:95-108 | the statement loop: succeeds exactly when none of the satellite inserts fails. Then the tables are the old ones with `AppendSatellites` of the whole buffer. |

## Left out

- The Activity lifecycle and UI (`onCreate`, `setContentView` and button wiring, lines 37-58) are not modelled. The constructor stands in for the field initialisers and the opened handle.
- `startCollecting`, the GNSS and location callbacks, and the code that fills `satelliteDataBuffer` and calls `insertDataAsTransaction` are not part of this model. Their source is not in the modelled file.
- `LocationManager.unregisterGnssStatusCallback` and `removeUpdates` are OS calls. They are modelled as boolean "registered" flags, beside flags for `gnssCallback != null` and `locationListener != null`.
- SQL text, the database file path (`getExternalFilesDir`), `SQLiteOpenHelper`'s version check, and logging (`Log.d`/`Log.e`) are not modelled. `getWritableDatabase` is the `Database.Open` constructor over the stored tables.
- Floating-point values are carried as `real` and only copied. The float-to-double widening at lines 103-105 is not modelled.
- Activity.MainActivity.InsertDataAsTransaction: the `(int)` cast of `last_insert_rowid()` at line 92 is not modelled. Row ids are assumed to fit in 32 bits.
- Activity.MainActivity.InsertDataAsTransaction: buffer entries are typed records, so the `ClassCastException`s the `Object[]` casts could raise are not modelled. An exception thrown by `endTransaction` itself is not modelled either.
- Store.Database.BeginTransaction: nested transactions are not modelled. The method requires that no transaction is open, which holds between the activity's operations.
- Store.DatabaseHelper.OnCreate: the transaction that `SQLiteOpenHelper` wraps around `onCreate`/`onUpgrade` is not modelled.
- The storage engine's failures of BEGIN and of the inserts are inputs (`beginFault`, `failAt` and the `fault` arguments), not a model of I/O. Failures of `setTransactionSuccessful`, `endTransaction`, `last_insert_rowid()` and `close` are not modelled.
- The GNSS and location callbacks are not modelled as concurrent. The shown code does no synchronisation, and the operations are modelled as sequential.
- `samplingInterval` (line 31) is only used by code outside this file and is not modelled.
