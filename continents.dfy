/**
  The ISO alpha-3 to continent table of the ETL pipeline and its lookup with
  the `"Unknown"` fallback (`df['iso'].map(CONTINENT_MAP).fillna('Unknown')`).
 */
module Continents {
  import opened Wrappers

  const NorthAmericaCodes: set<string> := {
    "USA", "CAN", "MEX", "GTM", "CUB", "HTI", "DOM", "HND", "NIC", "SLV", "CRI", "PAN",
    "JAM", "TTO", "BHS", "BLZ", "BRB", "GRD"}

  const SouthAmericaCodes: set<string> := {
    "BRA", "ARG", "COL", "PER", "VEN", "CHL", "ECU", "BOL", "PRY", "URY", "GUY", "SUR"}

  const EuropeCodes: set<string> := {
    "DEU", "GBR", "FRA", "ITA", "ESP", "POL", "ROU", "NLD", "BEL", "CZE", "GRC", "PRT",
    "SWE", "HUN", "AUT", "CHE", "BGR", "DNK", "FIN", "SVK", "NOR", "IRL", "HRV", "LTU",
    "SVN", "LVA", "EST", "CYP", "LUX", "MLT", "ISL", "ALB", "MKD", "SRB", "MNE", "BIH",
    "UKR", "BLR", "MDA", "RUS", "TUR"}

  const AsiaCodes: set<string> := {
    "CHN", "IND", "JPN", "KOR", "IDN", "PAK", "BGD", "VNM", "PHL", "THA", "MMR", "MYS",
    "NPL", "AFG", "IRQ", "SAU", "YEM", "SYR", "JOR", "ARE", "ISR", "LBN", "KWT", "QAT",
    "BHR", "OMN", "IRN", "KAZ", "UZB", "TKM", "KGZ", "TJK", "MNG", "PRK", "LAO", "KHM",
    "SGP", "BRN", "TWN", "HKG", "LKA", "BTN", "MDV", "AZE", "GEO", "ARM", "TLS"}

  const AfricaCodes: set<string> := {
    "NGA", "ETH", "EGY", "COD", "TZA", "ZAF", "KEN", "UGA", "DZA", "SDN", "MAR", "AGO",
    "MOZ", "GHA", "MDG", "CMR", "CIV", "NER", "BFA", "MLI", "MWI", "ZMB", "SEN", "TCD",
    "SOM", "ZWE", "GIN", "RWA", "BEN", "BDI", "TUN", "SSD", "TGO", "SLE", "LBY", "COG",
    "LBR", "CAF", "MRT", "ERI", "NAM", "GMB", "BWA", "GAB", "LSO", "GNB", "GNQ", "MUS",
    "SWZ", "DJI", "COM", "CPV", "STP", "SYC"}

  const OceaniaCodes: set<string> := {
    "AUS", "NZL", "PNG", "FJI", "SLB", "VUT", "NCL", "PYF", "WSM", "GUM", "KIR", "TON",
    "FSM", "PLW", "MHL", "NRU", "TUV"}

  /**
    `CONTINENT_MAP`, written group by group as in the source. The groups share
    no code, so the union is the same dictionary whichever group wins.
   */
  const ContinentMap: map<string, string> :=
    (map c | c in NorthAmericaCodes :: "North America")
    + (map c | c in SouthAmericaCodes :: "South America")
    + (map c | c in EuropeCodes :: "Europe")
    + (map c | c in AsiaCodes :: "Asia")
    + (map c | c in AfricaCodes :: "Africa")
    + (map c | c in OceaniaCodes :: "Oceania")

  const ContinentNames: set<string> :=
    {"North America", "South America", "Europe", "Asia", "Africa", "Oceania"}

  const Unknown: string := "Unknown"

  /** The continent of a possibly missing ISO code, `"Unknown"` when the code is missing or unlisted. */
  function ContinentOf(iso: Option<string>): (continent: string)
    ensures continent in ContinentNames || continent == Unknown
  {
    if iso.Some? && iso.value in ContinentMap then ContinentMap[iso.value] else Unknown
  }

  /** Every listed code maps to one of the six continent names. */
  lemma ContinentMapValues()
    ensures forall code :: code in ContinentMap ==> ContinentMap[code] in ContinentNames
  {
  }

  /**
    The lookup answers `"Unknown"` exactly when the code is missing or not in
    the table; otherwise it answers the table's continent.
   */
  lemma ContinentOfUnknownIff(iso: Option<string>)
    ensures ContinentOf(iso) == Unknown <==> iso.None? || iso.value !in ContinentMap
    ensures iso.Some? && iso.value in ContinentMap ==> ContinentOf(iso) == ContinentMap[iso.value]
  {
    ContinentMapValues();
    assert Unknown !in ContinentNames;
  }
}
