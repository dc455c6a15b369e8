/**
 * The uncached spell use case. Every public operation makes exactly one
 * call to the remote source; that call's answer is the parameter `fetched`.
 * Randomness is the supplied `pick`.
 */
module SpellUseCase {
  import opened Wrappers
  import opened Spells
  import opened SpellFilters
  import opened RustStr
  import Seqs

  /** `get_spells_from_datasource` / `get_all_spells`: the fetched list, or its error wrapped. */
  function GetAllSpells(fetched: Result<seq<SpellsQuerySpells>, SpellsDataSourceError>)
    : (r: Result<seq<SpellsQuerySpells>, SpellError>)
    ensures fetched.Success? ==> r == Success(fetched.value)
    ensures fetched.Failure? ==> r == Failure(DataSourceError(fetched.error))
  {
    match fetched
    case Success(spells) => Success(spells)
    case Failure(e) => Failure(DataSourceError(e))
  }

  /**
   * `get_random_spell`: the converted form of some spell that passes both
   * filters; `NoSpellsFound` exactly when none does.
   */
  function GetRandomSpell(fetched: Result<seq<SpellsQuerySpells>, SpellsDataSourceError>,
                          level: Option<int>, classes: seq<string>, exactLevel: bool, pick: nat)
    : (r: Result<Spell, SpellError>)
    ensures fetched.Failure? ==> r == Failure(DataSourceError(fetched.error))
    ensures fetched.Success? ==>
              (r.Success? <==> exists i :: 0 <= i < |fetched.value| && Selected(fetched.value[i], level, classes, exactLevel))
    ensures fetched.Success? && r.Failure? ==> r.error == NoSpellsFound
    ensures r.Success? ==>
              exists i :: 0 <= i < |fetched.value| && Selected(fetched.value[i], level, classes, exactLevel)
                          && r.value == ToSpell(fetched.value[i])
  {
    var spells :- GetAllSpells(fetched);
    var filtered :- FilterSpells(spells, level, classes, exactLevel);
    var spell :- SpellFilters.RandomSpell(filtered, pick);
    Success(ToSpell(spell))
  }

  /** Each spell that passes the filters is what some `pick` returns. */
  lemma GetRandomSpellReachesAll(spells: seq<SpellsQuerySpells>, level: Option<int>, classes: seq<string>,
                                 exactLevel: bool, i: nat)
    requires i < |spells| && Selected(spells[i], level, classes, exactLevel)
    ensures exists pick: nat :: GetRandomSpell(Success(spells), level, classes, exactLevel, pick) == Success(ToSpell(spells[i]))
  {
    var filtered := FilterSpells(spells, level, classes, exactLevel).value;
    FilterSpellsSelects(spells, level, classes, exactLevel);
    var j :| 0 <= j < |filtered| && filtered[j] == spells[i];
    ChooseReachesAll(filtered, j);
    assert GetRandomSpell(Success(spells), level, classes, exactLevel, j) == Success(ToSpell(spells[i]));
  }

  /** A spell answers to a normalised query by its name or its index; a missing one reads as `""`. */
  predicate NameMatches(spell: SpellsQuerySpells, query: string) {
    Normalize(spell.name.GetOr("")) == query || Normalize(spell.index.GetOr("")) == query
  }

  /**
   * `get_spell_by_name`: the query is lowercased then trimmed, and the first
   * spell in list order whose normalised name or index equals it is returned.
   */
  function GetSpellByName(fetched: Result<seq<SpellsQuerySpells>, SpellsDataSourceError>, name: string)
    : (r: Result<Spell, SpellError>)
    ensures fetched.Failure? ==> r == Failure(DataSourceError(fetched.error))
    ensures fetched.Success? ==>
              (r.Failure? <==> forall i :: 0 <= i < |fetched.value| ==> !NameMatches(fetched.value[i], Normalize(name)))
    ensures fetched.Success? && r.Failure? ==> r.error == NoSpellsFound
    ensures r.Success? ==>
              exists i :: 0 <= i < |fetched.value| && NameMatches(fetched.value[i], Normalize(name))
                          && (forall j :: 0 <= j < i ==> !NameMatches(fetched.value[j], Normalize(name)))
                          && r.value == ToSpell(fetched.value[i])
  {
    var query := Normalize(name);
    var spells :- GetAllSpells(fetched);
    var matching := Seqs.Filter(spells, (s: SpellsQuerySpells) => NameMatches(s, query));
    if |matching| == 0 then
      Failure(NoSpellsFound)
    else
      Seqs.FilterFirst(spells, (s: SpellsQuerySpells) => NameMatches(s, query));
      Success(ToSpell(matching[0]))
  }

  /** Surrounding blanks and capitals in the query do not matter. */
  lemma GetSpellByNameNormalizes(fetched: Result<seq<SpellsQuerySpells>, SpellsDataSourceError>, name: string)
    ensures GetSpellByName(fetched, Normalize(name)) == GetSpellByName(fetched, name)
  {
    NormalizeIdempotent(name);
  }

  /** A blank query matches any spell whose name or index is missing. */
  lemma BlankQueryMatchesMissingField(spell: SpellsQuerySpells, blank: string)
    requires forall i :: 0 <= i < |blank| ==> IsWhitespace(blank[i])
    requires spell.name.None? || spell.index.None?
    ensures NameMatches(spell, Normalize(blank))
  {
    BlankNormalizesToEmpty(blank);
    assert Normalize("") == "";
  }

  lemma {:induction false} BlankNormalizesToEmpty(blank: string)
    requires forall i :: 0 <= i < |blank| ==> IsWhitespace(blank[i])
    ensures Normalize(blank) == ""
  {
  }

  /**
   * `get_all_spells_with_filters`: never an empty success; otherwise every
   * spell passing both filters, in list order, converted.
   */
  function GetAllSpellsWithFilters(fetched: Result<seq<SpellsQuerySpells>, SpellsDataSourceError>,
                                   level: Option<int>, classes: seq<string>, exactLevel: bool)
    : (r: Result<seq<Spell>, SpellError>)
    ensures r.Success? ==> |r.value| > 0
    ensures fetched.Failure? ==> r == Failure(DataSourceError(fetched.error))
    ensures fetched.Success? ==>
              var kept := Seqs.Filter(fetched.value, (s: SpellsQuerySpells) => Selected(s, level, classes, exactLevel));
              && (|kept| == 0 <==> r.Failure?)
              && (r.Failure? ==> r.error == NoSpellsFound)
              && (r.Success? ==> |r.value| == |kept| && forall i :: 0 <= i < |kept| ==> r.value[i] == ToSpell(kept[i]))
  {
    var spells :- GetAllSpells(fetched);
    var filtered := FilterSpells(spells, level, classes, exactLevel);
    if filtered.Failure? then
      NothingPassesNothingKept(spells, level, classes, exactLevel);
      Failure(filtered.error)
    else if |filtered.value| == 0 then Failure(NoSpellsFound)
    else Success(Seqs.Map(filtered.value, ToSpell))
  }

  lemma NothingPassesNothingKept(spells: seq<SpellsQuerySpells>, level: Option<int>, classes: seq<string>,
                                 exactLevel: bool)
    requires FilterSpells(spells, level, classes, exactLevel).Failure?
    ensures |Seqs.Filter(spells, (s: SpellsQuerySpells) => Selected(s, level, classes, exactLevel))| == 0
  {
    var kept := Seqs.Filter(spells, (s: SpellsQuerySpells) => Selected(s, level, classes, exactLevel));
    if |kept| > 0 {
      assert kept[0] in spells;
    }
  }
}
