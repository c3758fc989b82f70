/**
  Classification of a GNSS constellation code into the name stored in the
  `type` column of `satellite_info` (MainActivity.getSatelliteType).
 */
module Constellation {
  import opened Wrappers

  // Constellation codes of android.location.GnssStatus. They are platform
  // constants; the classification relies only on their being distinct.
  const Unknown: int := 0
  const Gps: int := 1
  const Sbas: int := 2
  const Glonass: int := 3
  const Qzss: int := 4
  const Beidou: int := 5
  const Galileo: int := 6

  /** The codes that the switch names explicitly. */
  const KnownCodes: set<int> := {Gps, Glonass, Beidou, Galileo, Qzss, Sbas, Unknown}

  /** The names of the known codes, and every name the classification can give. */
  const KnownNames: set<string> := {"GPS", "GLONASS", "BeiDou", "Galileo", "QZSS", "SBAS", "Unknown"}
  const TypeNames: set<string> := KnownNames + {"Other"}

  /** The name of a constellation code; any code not named in the switch is "Other". */
  function SatelliteType(code: int): (name: string)
    ensures name in TypeNames
    ensures name == "Other" <==> code !in KnownCodes
    ensures code in KnownCodes <==> name in KnownNames
  {
    if code == Gps then "GPS"
    else if code == Glonass then "GLONASS"
    else if code == Beidou then "BeiDou"
    else if code == Galileo then "Galileo"
    else if code == Qzss then "QZSS"
    else if code == Sbas then "SBAS"
    else if code == Unknown then "Unknown"
    else "Other"
  }

  /**
    The inverse of SatelliteType on the known codes: the code a stored
    `type` name was produced from, when that name identifies one code.
   */
  function CodeOf(name: string): (r: Option<int>)
    ensures r.Some? ==> r.value in KnownCodes && SatelliteType(r.value) == name
    ensures r.None? <==> name !in KnownNames
  {
    if name == "GPS" then Some(Gps)
    else if name == "GLONASS" then Some(Glonass)
    else if name == "BeiDou" then Some(Beidou)
    else if name == "Galileo" then Some(Galileo)
    else if name == "QZSS" then Some(Qzss)
    else if name == "SBAS" then Some(Sbas)
    else if name == "Unknown" then Some(Unknown)
    else None
  }

  /** Each named constellation maps to its own name. */
  lemma ConstellationNames()
    ensures SatelliteType(Gps) == "GPS" && SatelliteType(Glonass) == "GLONASS"
    ensures SatelliteType(Beidou) == "BeiDou" && SatelliteType(Galileo) == "Galileo"
    ensures SatelliteType(Qzss) == "QZSS" && SatelliteType(Sbas) == "SBAS"
    ensures SatelliteType(Unknown) == "Unknown"
  {
  }

  /** Distinct known codes get distinct names, so the stored name identifies the code. */
  lemma SatelliteTypeRoundTrip(code: int)
    requires code in KnownCodes
    ensures CodeOf(SatelliteType(code)) == Some(code)
  {
  }
}
