/**
  The `DataManager` of the API: a cache of the emissions table, the sector
  table and the insights document, refreshed from disk when it is older than
  one hour or has been invalidated.

  The clock is a parameter (microseconds, the resolution of `datetime`), and
  each data file is a parameter holding its parsed content, `None` when the
  file does not exist.
 */
module Cache {
  import opened Wrappers
  import opened Emissions
  import opened Api

  /** `timedelta(hours=1)` in microseconds. */
  const CacheTtl: int := 3600000000

  /** The pre-computed insights JSON document, as a map from keys to encoded values. */
  datatype Document = Document(fields: map<string, string>)

  /**
    `_should_reload`: nothing has been loaded since start-up or invalidation,
    or the last load lies more than the TTL before `now`.
   */
  predicate ShouldReload(lastLoad: Option<int>, now: int) {
    lastLoad.None? || now - lastLoad.value > CacheTtl
  }

  /** A load at time `t` stays fresh up to and including `t + CacheTtl`, and is stale after. */
  lemma ShouldReloadWindow(t: int, now: int)
    ensures ShouldReload(Some(t), now) <==> now > t + CacheTtl
    ensures ShouldReload(None, now)
  {
  }

  /** Once stale, a cache stays stale as time passes. */
  lemma ShouldReloadMonotone(lastLoad: Option<int>, now: int, later: int)
    requires now <= later && ShouldReload(lastLoad, now)
    ensures ShouldReload(lastLoad, later)
  {
  }

  class DataManager {
    var emissions: Option<Table>
    var sectors: Option<seq<Record>>
    var insights: Option<Document>
    var lastLoad: Option<int>

    /** Only a successful emissions load sets the timestamp, and it sets the table with it. */
    predicate Valid()
      reads this
    {
      lastLoad.Some? ==> emissions.Some?
    }

    constructor()
      ensures Valid()
      ensures emissions == None && sectors == None && insights == None && lastLoad == None
    {
      emissions, sectors, insights, lastLoad := None, None, None, None;
    }

    /**
      `load_emissions`: the cached table while it is fresh; otherwise the file
      is read and stamped with the time `loadedAt` of the read, or 503 when the
      file is missing, in which case nothing changes.
     */
    method LoadEmissions(now: int, file: Option<Table>, loadedAt: int) returns (r: Result<Table, ApiError>)
      requires Valid()
      modifies this
      ensures Valid()
      ensures sectors == old(sectors) && insights == old(insights)
      ensures old(emissions.Some? && !ShouldReload(lastLoad, now)) ==>
        r == Success(old(emissions.value)) && emissions == old(emissions) && lastLoad == old(lastLoad)
      ensures !old(emissions.Some? && !ShouldReload(lastLoad, now)) && file.None? ==>
        r == Failure(DataUnavailable) && emissions == old(emissions) && lastLoad == old(lastLoad)
      ensures !old(emissions.Some? && !ShouldReload(lastLoad, now)) && file.Some? ==>
        r == Success(file.value) && emissions == file && lastLoad == Some(loadedAt)
    {
      if emissions.Some? && !ShouldReload(lastLoad, now) {
        return Success(emissions.value);
      }
      if file.None? {
        return Failure(DataUnavailable);
      }
      emissions := file;
      lastLoad := Some(loadedAt);
      r := Success(file.value);
    }

    /**
      `load_sector_data`: the cached records while the emissions timestamp is
      fresh; otherwise the file's records, cached without touching the
      timestamp, or an empty table when the file is missing (the stale cache
      is then kept but not returned).
     */
    method LoadSectorData(now: int, file: Option<seq<Record>>) returns (records: seq<Record>)
      requires Valid()
      modifies this
      ensures Valid()
      ensures emissions == old(emissions) && insights == old(insights) && lastLoad == old(lastLoad)
      ensures old(sectors.Some? && !ShouldReload(lastLoad, now)) ==>
        records == old(sectors.value) && sectors == old(sectors)
      ensures !old(sectors.Some? && !ShouldReload(lastLoad, now)) && file.None? ==>
        records == [] && sectors == old(sectors)
      ensures !old(sectors.Some? && !ShouldReload(lastLoad, now)) && file.Some? ==>
        records == file.value && sectors == file
    {
      if sectors.Some? && !ShouldReload(lastLoad, now) {
        return sectors.value;
      }
      if file.Some? {
        sectors := file;
        return file.value;
      }
      records := [];
    }

    /** `load_insights`: as `load_sector_data`, with `{}` when the file is missing. */
    method LoadInsights(now: int, file: Option<Document>) returns (doc: Document)
      requires Valid()
      modifies this
      ensures Valid()
      ensures emissions == old(emissions) && sectors == old(sectors) && lastLoad == old(lastLoad)
      ensures old(insights.Some? && !ShouldReload(lastLoad, now)) ==>
        doc == old(insights.value) && insights == old(insights)
      ensures !old(insights.Some? && !ShouldReload(lastLoad, now)) && file.None? ==>
        doc == Document(map[]) && insights == old(insights)
      ensures !old(insights.Some? && !ShouldReload(lastLoad, now)) && file.Some? ==>
        doc == file.value && insights == file
    {
      if insights.Some? && !ShouldReload(lastLoad, now) {
        return insights.value;
      }
      if file.Some? {
        insights := file;
        return file.value;
      }
      doc := Document(map[]);
    }

    /**
      `invalidate_cache`: forget the timestamp only. Every cached value stays,
      but from now on every load takes the reload path.
     */
    method InvalidateCache()
      requires Valid()
      modifies this
      ensures Valid()
      ensures lastLoad == None
      ensures emissions == old(emissions) && sectors == old(sectors) && insights == old(insights)
      ensures forall now :: ShouldReload(lastLoad, now)
    {
      lastLoad := None;
    }
  }
}
