/**
 * The cached random-spell use case: a remote spell source behind the
 * two-tier local store, all batches kept under key 0. Its error type has the
 * shape of `SpellError`, which stands for it here.
 */
module RandomSpells {
  import opened Wrappers
  import opened Spells
  import opened LruTimeCache
  import opened LocalDatasources
  import SpellFilters
  import SpellUseCase

  /** The remote source: every call returns `answer` and is counted. */
  class SpellSource {
    var answer: Result<seq<SpellsQuerySpells>, SpellsDataSourceError>
    var calls: nat

    constructor (answer: Result<seq<SpellsQuerySpells>, SpellsDataSourceError>)
      ensures this.answer == answer && calls == 0
    {
      this.answer := answer;
      calls := 0;
    }

    method GetAllSpells() returns (r: Result<seq<SpellsQuerySpells>, SpellsDataSourceError>)
      modifies this`calls
      ensures r == answer
      ensures calls == old(calls) + 1
    {
      r := answer;
      calls := calls + 1;
    }
  }

  /** What one read serves: the fresh batch under key 0 if there is one, else the remote answer. */
  function Served(recent: Option<seq<SpellsQuerySpells>>, answer: Result<seq<SpellsQuerySpells>, SpellsDataSourceError>)
    : Result<seq<SpellsQuerySpells>, SpellsDataSourceError>
  {
    if recent.Some? then Success(recent.value) else answer
  }

  class RandomSpell {
    const datasource: SpellSource
    const localDatasource: LocalDatasource<SpellsQuerySpells>

    ghost predicate Valid()
      reads this, localDatasource
    {
      localDatasource.Valid() && localDatasource.cache.capacity == 2
    }

    /** `new`: a store of capacity 2 whose TTL is `cacheTime`, 1000 ms when absent. */
    constructor (datasource: SpellSource, cacheTime: Option<nat>)
      ensures Valid() && fresh(localDatasource)
      ensures this.datasource == datasource
      ensures localDatasource.cache == Empty(2, None)
      ensures localDatasource.timeCache == Empty(2, Some(cacheTime.GetOr(1000)))
    {
      this.datasource := datasource;
      var store := new LocalDatasource<SpellsQuerySpells>(2, cacheTime.GetOr(1000));
      localDatasource := store;
    }

    /** `cache_spells`: the batch goes under key 0 in both tiers. */
    method CacheSpells(spells: seq<SpellsQuerySpells>, now: nat)
      requires Valid()
      modifies localDatasource
      ensures Valid()
      ensures localDatasource.cache == LruTimeCache.Insert(old(localDatasource.cache), 0, spells, now)
      ensures localDatasource.timeCache == LruTimeCache.Insert(old(localDatasource.timeCache), 0, spells, now)
    {
      localDatasource.Insert(spells, Some(0), now);
    }

    /**
     * `get_all_spells`: a fresh batch under key 0 is served without calling
     * the remote source; otherwise the source is called once, and a batch it
     * returns is cached and served. There is no fallback to the permanent
     * tier: a failing source fails the read.
     */
    method GetAllSpells(now: nat) returns (r: Result<seq<SpellsQuerySpells>, SpellError>)
      requires Valid()
      modifies localDatasource, datasource`calls
      ensures Valid()
      ensures var recent := Lookup(old(localDatasource.timeCache), 0, now);
        r == SpellUseCase.GetAllSpells(Served(recent, datasource.answer))
      ensures var recent := Lookup(old(localDatasource.timeCache), 0, now);
        datasource.calls == if recent.Some? then old(datasource.calls) else old(datasource.calls) + 1
      ensures var afterRead := LruTimeCache.Get(old(localDatasource.timeCache), 0, now).0;
        if r.Success? && Lookup(old(localDatasource.timeCache), 0, now).None? then
          && localDatasource.cache == LruTimeCache.Insert(old(localDatasource.cache), 0, r.value, now)
          && localDatasource.timeCache == LruTimeCache.Insert(afterRead, 0, r.value, now)
        else
          && localDatasource.cache == old(localDatasource.cache)
          && localDatasource.timeCache == afterRead
      ensures r.Success? ==> Lookup(localDatasource.timeCache, 0, now) == Some(r.value)
    {
      var recent := localDatasource.GetRecent(Some(0), now);
      if recent.Some? {
        r := Success(recent.value);
      } else {
        var fetched := datasource.GetAllSpells();
        match fetched
        case Success(spells) =>
          CacheSpells(spells, now);
          r := Success(spells);
        case Failure(e) =>
          r := Failure(DataSourceError(e));
      }
    }

    /**
     * `get_random_spell`: the uncached use case's answer, over whatever
     * `GetAllSpells` serves.
     */
    method GetRandomSpell(level: Option<int>, classes: seq<string>, exactLevel: bool, pick: nat, now: nat)
      returns (r: Result<Spell, SpellError>)
      requires Valid()
      modifies localDatasource, datasource`calls
      ensures Valid()
      ensures var recent := Lookup(old(localDatasource.timeCache), 0, now);
        r == SpellUseCase.GetRandomSpell(Served(recent, datasource.answer), level, classes, exactLevel, pick)
      ensures var recent := Lookup(old(localDatasource.timeCache), 0, now);
        datasource.calls == if recent.Some? then old(datasource.calls) else old(datasource.calls) + 1
      ensures var recent := Lookup(old(localDatasource.timeCache), 0, now);
        var afterRead := LruTimeCache.Get(old(localDatasource.timeCache), 0, now).0;
        if recent.None? && datasource.answer.Success? then
          && localDatasource.cache == LruTimeCache.Insert(old(localDatasource.cache), 0, datasource.answer.value, now)
          && localDatasource.timeCache == LruTimeCache.Insert(afterRead, 0, datasource.answer.value, now)
        else
          && localDatasource.cache == old(localDatasource.cache)
          && localDatasource.timeCache == afterRead
    {
      var spells := GetAllSpells(now);
      if spells.Failure? {
        return Failure(spells.error);
      }
      var filtered := SpellFilters.FilterSpells(spells.value, level, classes, exactLevel);
      if filtered.Failure? {
        return Failure(filtered.error);
      }
      var chosen := SpellFilters.RandomSpell(filtered.value, pick);
      if chosen.Failure? {
        return Failure(chosen.error);
      }
      r := Success(SpellFilters.ToSpell(chosen.value));
    }
  }

  /** Two reads within the TTL call the remote source once and serve the same batch. */
  method ReadTwiceWithinTtl(spells: seq<SpellsQuerySpells>) returns (first: Result<seq<SpellsQuerySpells>, SpellError>,
                                                                     second: Result<seq<SpellsQuerySpells>, SpellError>,
                                                                     calls: nat)
    ensures first == Success(spells) && second == Success(spells)
    ensures calls == 1
  {
    var source := new SpellSource(Success(spells));
    var useCase := new RandomSpell(source, None);
    ghost var t0 := useCase.localDatasource.timeCache;
    first := useCase.GetAllSpells(0);
    InsertThenLookup(Get(t0, 0, 0).0, 0, spells, 0, 1000);
    second := useCase.GetAllSpells(1000);
    calls := source.calls;
  }

  /** Two random picks within the TTL call the remote source once, over the same batch. */
  method PickTwiceWithinTtl(spells: seq<SpellsQuerySpells>, pick1: nat, pick2: nat)
    returns (first: Result<Spell, SpellError>, second: Result<Spell, SpellError>, calls: nat)
    ensures first == SpellUseCase.GetRandomSpell(Success(spells), None, [], false, pick1)
    ensures second == SpellUseCase.GetRandomSpell(Success(spells), None, [], false, pick2)
    ensures calls == 1
  {
    var source := new SpellSource(Success(spells));
    var useCase := new RandomSpell(source, None);
    ghost var t0 := useCase.localDatasource.timeCache;
    first := useCase.GetRandomSpell(None, [], false, pick1, 0);
    InsertThenLookup(Get(t0, 0, 0).0, 0, spells, 0, 5);
    second := useCase.GetRandomSpell(None, [], false, pick2, 5);
    calls := source.calls;
  }

  /** Once the TTL has passed, the next read calls the remote source again. */
  method ReadAfterTtl(spells: seq<SpellsQuerySpells>) returns (second: Result<seq<SpellsQuerySpells>, SpellError>,
                                                               calls: nat)
    ensures second == Success(spells)
    ensures calls == 2
  {
    var source := new SpellSource(Success(spells));
    var useCase := new RandomSpell(source, Some(10));
    ghost var t0 := useCase.localDatasource.timeCache;
    var first := useCase.GetAllSpells(0);
    InsertThenLookup(Get(t0, 0, 0).0, 0, spells, 0, 11);
    second := useCase.GetAllSpells(11);
    calls := source.calls;
  }

  /** A failing source is not masked by the permanent tier: the read fails. */
  method NoStaleFallback(spells: seq<SpellsQuerySpells>, e: SpellsDataSourceError)
    returns (second: Result<seq<SpellsQuerySpells>, SpellError>, permanent: Option<seq<SpellsQuerySpells>>)
    ensures second == Failure(DataSourceError(e))
    ensures permanent == Some(spells)
  {
    var source := new SpellSource(Success(spells));
    var useCase := new RandomSpell(source, Some(10));
    ghost var c0, t0 := useCase.localDatasource.cache, useCase.localDatasource.timeCache;
    var first := useCase.GetAllSpells(0);
    InsertThenLookup(c0, 0, spells, 0, 11);
    InsertThenLookup(Get(t0, 0, 0).0, 0, spells, 0, 11);
    source.answer := Failure(e);
    second := useCase.GetAllSpells(11);
    permanent := Lookup(useCase.localDatasource.cache, 0, 11);
  }
}
