/**
  The two tables of gnss_data.db as values: `location_record` and
  `satellite_info`, each with an AUTOINCREMENT primary key, and
  `satellite_info.location_id` referring to `location_record.id`.
  Floating-point columns are carried as `real`: the core only copies them.
 */
module Schema {

  /** One position fix as handed to insertDataAsTransaction. */
  datatype Fix = Fix(timestamp: string, latitude: real, longitude: real, accuracy: real)

  /** One entry of satelliteDataBuffer: fields 0-4 of its Object[]. */
  datatype SatelliteEntry = SatelliteEntry(svid: int, typeName: string, azimuth: real, elevation: real, snr: real)

  datatype LocationRow = LocationRow(id: int, timestamp: string, latitude: real, longitude: real, accuracy: real)

  datatype SatelliteRow = SatelliteRow(
    id: int, satelliteId: int, typeName: string,
    azimuth: real, elevation: real, snr: real, locationId: int)

  datatype TableName = LocationRecord | SatelliteInfo

  /**
    The contents of the store. A table that does not exist has no rows.
    `locationSeq` and `satelliteSeq` are the tables' entries in SQLite's
    sqlite_sequence: the largest id AUTOINCREMENT has handed out.
   */
  datatype Tables = Tables(
    hasLocationTable: bool, locations: seq<LocationRow>, locationSeq: int,
    hasSatelliteTable: bool, satellites: seq<SatelliteRow>, satelliteSeq: int)

  /** A store with neither table, as before DatabaseHelper.onCreate. */
  const NoTables: Tables := Tables(false, [], 0, false, [], 0)

  /** Both tables created and empty. */
  const EmptyTables: Tables := Tables(true, [], 0, true, [], 0)

  /** The named table exists. */
  predicate HasTable(t: Tables, name: TableName) {
    match name
    case LocationRecord => t.hasLocationTable
    case SatelliteInfo => t.hasSatelliteTable
  }

  /** Both tables exist, so both kinds of insert can succeed. */
  predicate Writable(t: Tables) {
    t.hasLocationTable && t.hasSatelliteTable
  }

  /**
    What AUTOINCREMENT guarantees of a table: every id is positive and at
    most the sequence counter; a missing table holds nothing and has no
    counter.
   */
  ghost predicate WellFormed(t: Tables) {
    && 0 <= t.locationSeq && 0 <= t.satelliteSeq
    && (!t.hasLocationTable ==> t.locations == [] && t.locationSeq == 0)
    && (!t.hasSatelliteTable ==> t.satellites == [] && t.satelliteSeq == 0)
    && (forall i :: 0 <= i < |t.locations| ==> 0 < t.locations[i].id <= t.locationSeq)
    && (forall i :: 0 <= i < |t.satellites| ==> 0 < t.satellites[i].id <= t.satelliteSeq)
  }

  /** INTEGER PRIMARY KEY: no two rows of a table share an id. */
  ghost predicate KeysUnique(t: Tables) {
    && (forall i, j :: 0 <= i < j < |t.locations| ==> t.locations[i].id != t.locations[j].id)
    && (forall i, j :: 0 <= i < j < |t.satellites| ==> t.satellites[i].id != t.satellites[j].id)
  }

  /** Some `location_record` row has this id. */
  ghost predicate LocationExists(t: Tables, id: int) {
    exists j :: 0 <= j < |t.locations| && t.locations[j].id == id
  }

  /** Every `satellite_info.location_id` names an existing `location_record.id`. */
  ghost predicate RefIntegrity(t: Tables) {
    forall i :: 0 <= i < |t.satellites| ==> LocationExists(t, t.satellites[i].locationId)
  }

  /** The location_record table (existence, rows, sequence counter) is the same in both. */
  predicate LocationTableKept(t: Tables, r: Tables) {
    r.hasLocationTable == t.hasLocationTable && r.locations == t.locations && r.locationSeq == t.locationSeq
  }

  /** The satellite_info table (existence, rows, sequence counter) is the same in both. */
  predicate SatelliteTableKept(t: Tables, r: Tables) {
    r.hasSatelliteTable == t.hasSatelliteTable && r.satellites == t.satellites && r.satelliteSeq == t.satelliteSeq
  }

  /** The buffer entry a `satellite_info` row carries: its columns satellite_id..snr. */
  function EntryOf(row: SatelliteRow): SatelliteEntry {
    SatelliteEntry(row.satelliteId, row.typeName, row.azimuth, row.elevation, row.snr)
  }

  /**
    The `satellite_info` row bound from a buffer entry: the five fields
    are kept whole, next to the row's own id and its location_id.
   */
  function SatelliteRowFor(e: SatelliteEntry, id: int, locationId: int): (row: SatelliteRow)
    ensures EntryOf(row) == e
    ensures row.id == id && row.locationId == locationId
  {
    SatelliteRow(id, e.svid, e.typeName, e.azimuth, e.elevation, e.snr, locationId)
  }

  /** INSERT INTO location_record: one new row whose id AUTOINCREMENT assigns. */
  function AppendLocation(t: Tables, fix: Fix): (r: Tables)
    ensures r.locations == t.locations + [LocationRow(t.locationSeq + 1, fix.timestamp, fix.latitude, fix.longitude, fix.accuracy)]
    ensures r.locationSeq == t.locationSeq + 1
    ensures r.hasLocationTable == t.hasLocationTable && SatelliteTableKept(t, r)
    ensures WellFormed(t) && t.hasLocationTable ==> WellFormed(r)
    ensures RefIntegrity(t) ==> RefIntegrity(r)
  {
    var id := t.locationSeq + 1;
    var r := t.(locations := t.locations + [LocationRow(id, fix.timestamp, fix.latitude, fix.longitude, fix.accuracy)],
                locationSeq := id);
    assert forall j :: 0 <= j < |t.locations| ==> r.locations[j] == t.locations[j];
    r
  }

  /** INSERT INTO satellite_info: one new child row of `locationId`. */
  function AppendSatellite(t: Tables, e: SatelliteEntry, locationId: int): (r: Tables)
    ensures r.satellites == t.satellites + [SatelliteRowFor(e, t.satelliteSeq + 1, locationId)]
    ensures LocationTableKept(t, r) && r.hasSatelliteTable == t.hasSatelliteTable
    ensures r.satelliteSeq == t.satelliteSeq + 1
    ensures WellFormed(t) && t.hasSatelliteTable ==> WellFormed(r)
    ensures RefIntegrity(t) && LocationExists(t, locationId) ==> RefIntegrity(r)
  {
    var id := t.satelliteSeq + 1;
    t.(satellites := t.satellites + [SatelliteRowFor(e, id, locationId)], satelliteSeq := id)
  }

  /** The rows the statement loop inserts for `es`, in order, all children of `locationId`. */
  function AppendSatellites(t: Tables, es: seq<SatelliteEntry>, locationId: int): (r: Tables)
    ensures LocationTableKept(t, r) && r.hasSatelliteTable == t.hasSatelliteTable
    ensures |r.satellites| == |t.satellites| + |es| && r.satelliteSeq == t.satelliteSeq + |es|
    decreases |es|
  {
    if es == [] then t
    else AppendSatellite(AppendSatellites(t, es[..|es| - 1], locationId), es[|es| - 1], locationId)
  }

  /**
    The correlated write: the location row, then one satellite row per
    entry, each carrying the id the location row was given.
   */
  function RecordFix(t: Tables, fix: Fix, es: seq<SatelliteEntry>): (r: Tables)
    ensures |r.locations| == |t.locations| + 1 && r.locationSeq == t.locationSeq + 1
    ensures |r.satellites| == |t.satellites| + |es| && r.satelliteSeq == t.satelliteSeq + |es|
    ensures r.hasLocationTable == t.hasLocationTable && r.hasSatelliteTable == t.hasSatelliteTable
  {
    AppendSatellites(AppendLocation(t, fix), es, t.locationSeq + 1)
  }

  /** DROP TABLE IF EXISTS: the table, its rows and its sequence entry are gone. */
  function DropTable(t: Tables, name: TableName): (r: Tables)
    ensures !HasTable(r, name)
    ensures name == LocationRecord ==> r.locations == [] && r.locationSeq == 0 && SatelliteTableKept(t, r)
    ensures name == SatelliteInfo ==> r.satellites == [] && r.satelliteSeq == 0 && LocationTableKept(t, r)
    ensures HasTable(r, if name == LocationRecord then SatelliteInfo else LocationRecord)
        == HasTable(t, if name == LocationRecord then SatelliteInfo else LocationRecord)
    ensures WellFormed(t) ==> WellFormed(r)
  {
    match name
    case LocationRecord => t.(hasLocationTable := false, locations := [], locationSeq := 0)
    case SatelliteInfo => t.(hasSatelliteTable := false, satellites := [], satelliteSeq := 0)
  }

  /** CREATE TABLE on a table that does not exist: it exists and is empty. */
  function CreateTable(t: Tables, name: TableName): (r: Tables)
    ensures HasTable(r, name)
    ensures name == LocationRecord ==> r.locations == [] && r.locationSeq == 0 && SatelliteTableKept(t, r)
    ensures name == SatelliteInfo ==> r.satellites == [] && r.satelliteSeq == 0 && LocationTableKept(t, r)
    ensures WellFormed(t) ==> WellFormed(r)
  {
    match name
    case LocationRecord => t.(hasLocationTable := true, locations := [], locationSeq := 0)
    case SatelliteInfo => t.(hasSatelliteTable := true, satellites := [], satelliteSeq := 0)
  }

  /** The id AUTOINCREMENT hands out next is held by no existing row. */
  lemma NextLocationIdFresh(t: Tables)
    requires WellFormed(t)
    ensures !LocationExists(t, t.locationSeq + 1)
  {
  }

  /**
    AppendSatellites keeps the location table, adds exactly |es| rows after
    the existing ones, copies each entry's fields in buffer order, and gives
    every new row `locationId`.
   */
  lemma {:induction false} AppendSatellitesRows(t: Tables, es: seq<SatelliteEntry>, locationId: int)
    ensures var r := AppendSatellites(t, es, locationId);
      && r.locations == t.locations && r.locationSeq == t.locationSeq
      && r.hasLocationTable == t.hasLocationTable && r.hasSatelliteTable == t.hasSatelliteTable
      && r.satelliteSeq == t.satelliteSeq + |es|
      && |r.satellites| == |t.satellites| + |es|
      && r.satellites[..|t.satellites|] == t.satellites
      && forall k :: 0 <= k < |es| ==>
           r.satellites[|t.satellites| + k] == SatelliteRowFor(es[k], t.satelliteSeq + k + 1, locationId)
    decreases |es|
  {
    if es != [] {
      var init := es[..|es| - 1];
      AppendSatellitesRows(t, init, locationId);
      var m := AppendSatellites(t, init, locationId);
      var r := AppendSatellites(t, es, locationId);
      assert r == AppendSatellite(m, es[|es| - 1], locationId);
      forall k | 0 <= k < |es|
        ensures r.satellites[|t.satellites| + k] == SatelliteRowFor(es[k], t.satelliteSeq + k + 1, locationId)
      {
        if k < |init| {
          assert r.satellites[|t.satellites| + k] == m.satellites[|t.satellites| + k];
          assert init[k] == es[k];
        }
      }
      assert r.satellites[..|t.satellites|] == m.satellites[..|m.satellites|][..|t.satellites|];
    }
  }

  /** Appending children of an existing parent keeps the tables well formed and referentially intact. */
  lemma {:induction false} AppendSatellitesKeepsIntegrity(t: Tables, es: seq<SatelliteEntry>, locationId: int)
    requires WellFormed(t) && t.hasSatelliteTable && RefIntegrity(t) && LocationExists(t, locationId)
    ensures WellFormed(AppendSatellites(t, es, locationId))
    ensures RefIntegrity(AppendSatellites(t, es, locationId))
    decreases |es|
  {
    if es != [] {
      var init := es[..|es| - 1];
      AppendSatellitesKeepsIntegrity(t, init, locationId);
      AppendSatellitesRows(t, init, locationId);
      var m := AppendSatellites(t, init, locationId);
      assert m.locations == t.locations;
      assert LocationExists(m, locationId);
    }
  }

  /**
    A recorded fix adds exactly one location row, holding the fix, after the
    existing ones, and its id is one no earlier row has.
   */
  lemma RecordFixLocationRow(t: Tables, fix: Fix, es: seq<SatelliteEntry>)
    requires WellFormed(t)
    ensures var r := RecordFix(t, fix, es); var id := t.locationSeq + 1;
      && |r.locations| == |t.locations| + 1
      && r.locations[..|t.locations|] == t.locations
      && r.locations[|t.locations|] == LocationRow(id, fix.timestamp, fix.latitude, fix.longitude, fix.accuracy)
      && !LocationExists(t, id)
  {
    var t1 := AppendLocation(t, fix);
    AppendSatellitesRows(t1, es, t.locationSeq + 1);
    NextLocationIdFresh(t);
  }

  /**
    A recorded fix adds exactly |es| satellite rows after the existing ones,
    in buffer order, each copying its entry's fields and naming the new
    location row's id.
   */
  lemma RecordFixSatelliteRows(t: Tables, fix: Fix, es: seq<SatelliteEntry>)
    ensures var r := RecordFix(t, fix, es); var id := t.locationSeq + 1;
      && |r.satellites| == |t.satellites| + |es|
      && r.satellites[..|t.satellites|] == t.satellites
      && (forall k :: 0 <= k < |es| ==>
            r.satellites[|t.satellites| + k] == SatelliteRowFor(es[k], t.satelliteSeq + k + 1, id))
      && (forall k :: |t.satellites| <= k < |r.satellites| ==> r.satellites[k].locationId == id)
  {
    var id := t.locationSeq + 1;
    var t1 := AppendLocation(t, fix);
    assert t1.satellites == t.satellites && t1.satelliteSeq == t.satelliteSeq;
    AppendSatellitesRows(t1, es, id);
    var r := RecordFix(t, fix, es);
    forall k | |t.satellites| <= k < |r.satellites|
      ensures r.satellites[k].locationId == id
    {
      var j := k - |t.satellites|;
      assert r.satellites[|t1.satellites| + j] == SatelliteRowFor(es[j], t1.satelliteSeq + j + 1, id);
    }
  }

  /** A recorded fix keeps both tables well formed and leaves no dangling location_id. */
  lemma RecordFixKeepsIntegrity(t: Tables, fix: Fix, es: seq<SatelliteEntry>)
    requires WellFormed(t) && Writable(t) && RefIntegrity(t)
    ensures WellFormed(RecordFix(t, fix, es)) && RefIntegrity(RecordFix(t, fix, es))
  {
    var t1 := AppendLocation(t, fix);
    assert t1.locations[|t.locations|].id == t.locationSeq + 1;
    assert LocationExists(t1, t.locationSeq + 1);
    AppendSatellitesKeepsIntegrity(t1, es, t.locationSeq + 1);
  }

  /** A recorded fix gives its location row an id no other location row has. */
  lemma RecordFixKeepsLocationKeysUnique(t: Tables, fix: Fix, es: seq<SatelliteEntry>)
    requires WellFormed(t)
    requires forall i, j :: 0 <= i < j < |t.locations| ==> t.locations[i].id != t.locations[j].id
    ensures var r := RecordFix(t, fix, es);
      forall i, j :: 0 <= i < j < |r.locations| ==> r.locations[i].id != r.locations[j].id
  {
    var r := RecordFix(t, fix, es);
    RecordFixLocationRow(t, fix, es);
    forall i, j | 0 <= i < j < |r.locations|
      ensures r.locations[i].id != r.locations[j].id
    {
      if j == |t.locations| {
        assert r.locations[i] == t.locations[i];
      } else {
        assert r.locations[i] == t.locations[i] && r.locations[j] == t.locations[j];
      }
    }
  }

  /** A recorded fix gives each satellite row an id no other satellite row has. */
  lemma RecordFixKeepsSatelliteKeysUnique(t: Tables, fix: Fix, es: seq<SatelliteEntry>)
    requires WellFormed(t)
    requires forall i, j :: 0 <= i < j < |t.satellites| ==> t.satellites[i].id != t.satellites[j].id
    ensures var r := RecordFix(t, fix, es);
      forall i, j :: 0 <= i < j < |r.satellites| ==> r.satellites[i].id != r.satellites[j].id
  {
    var r := RecordFix(t, fix, es);
    RecordFixSatelliteRows(t, fix, es);
    var n := |t.satellites|;
    forall i, j | 0 <= i < j < |r.satellites|
      ensures r.satellites[i].id != r.satellites[j].id
    {
      if j < n {
        assert r.satellites[i] == t.satellites[i] && r.satellites[j] == t.satellites[j];
      } else {
        var kj := j - n;
        assert r.satellites[n + kj] == SatelliteRowFor(es[kj], t.satelliteSeq + kj + 1, t.locationSeq + 1);
        if i < n {
          assert r.satellites[i] == t.satellites[i];
        } else {
          var ki := i - n;
          assert r.satellites[n + ki] == SatelliteRowFor(es[ki], t.satelliteSeq + ki + 1, t.locationSeq + 1);
        }
      }
    }
  }

  /** A recorded fix gives every new row an id no other row of its table has. */
  lemma RecordFixKeepsKeysUnique(t: Tables, fix: Fix, es: seq<SatelliteEntry>)
    requires WellFormed(t) && KeysUnique(t)
    ensures KeysUnique(RecordFix(t, fix, es))
  {
    RecordFixKeepsLocationKeysUnique(t, fix, es);
    RecordFixKeepsSatelliteKeysUnique(t, fix, es);
  }
}
