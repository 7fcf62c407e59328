/**
  Types shared by the endpoints of the emissions API: the HTTP errors they
  raise and the enumerations FastAPI validates query parameters against.
 */
module Api {

  /** An `HTTPException` (or an unhandled exception, which FastAPI turns into a 500). */
  datatype ApiError = ApiError(status: int, detail: string)

  const DataUnavailable: ApiError := ApiError(503, "Data not available. Please run the ETL pipeline first.")

  /** FastAPI's answer to a query parameter outside its declared bounds. */
  const InvalidParameter: ApiError := ApiError(422, "Unprocessable Entity")

  /** What FastAPI answers when the handler raises an exception it does not handle. */
  const InternalError: ApiError := ApiError(500, "Internal Server Error")

  /** The `Continent` enumeration. */
  datatype ContinentChoice = Africa | Asia | Europe | NorthAmerica | SouthAmerica | Oceania | AllContinents

  function ContinentValue(c: ContinentChoice): string {
    match c
    case Africa => "Africa"
    case Asia => "Asia"
    case Europe => "Europe"
    case NorthAmerica => "North America"
    case SouthAmerica => "South America"
    case Oceania => "Oceania"
    case AllContinents => "all"
  }

  /** The `Sector` enumeration. */
  datatype SectorChoice = Energy | Transport | Industry | Agriculture | Buildings | Waste | LandUse | AllSectors

  function SectorValue(s: SectorChoice): string {
    match s
    case Energy => "Energy"
    case Transport => "Transport"
    case Industry => "Industry"
    case Agriculture => "Agriculture"
    case Buildings => "Buildings"
    case Waste => "Waste"
    case LandUse => "Land Use"
    case AllSectors => "all"
  }

  /** The `GasType` enumeration. */
  datatype GasChoice = CO2 | CH4 | N2O | GhgTotal | AllGases

  /** Decimal digits of a natural number, as `str` writes them. */
  function NatToString(n: nat): (s: string)
    ensures |s| >= 1
    ensures forall k :: 0 <= k < |s| ==> '0' <= s[k] <= '9'
    decreases n
  {
    var digit := ['0' + (n % 10) as char];
    if n < 10 then digit else NatToString(n / 10) + digit
  }

  /** `str(i)` for an integer. */
  function IntToString(i: int): string {
    if i < 0 then "-" + NatToString(-i) else NatToString(i)
  }
}
