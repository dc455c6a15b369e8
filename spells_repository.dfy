/** The early repository: one fetch and a random element of the whole list. */
module SpellsRepository {
  import opened Wrappers
  import SpellFilters

  datatype SpellRepositoryError<E> = DataSourceError(source: E)

  /** A spell, the wrapped fetch error, or the panic of `unwrap` on an empty choice. */
  datatype RepositoryOutcome<T, E> = Found(spell: T) | Failed(error: SpellRepositoryError<E>) | PanickedOnEmpty

  /**
   * `get_random_spell`: no filtering; an empty fetched list reaches an
   * `unwrap` of `None` and panics.
   */
  function GetRandomSpell<T, E>(fetched: Result<seq<T>, E>, pick: nat): (r: RepositoryOutcome<T, E>)
    ensures fetched.Failure? <==> r.Failed?
    ensures fetched.Failure? ==> r.error == DataSourceError(fetched.error)
    ensures r.PanickedOnEmpty? <==> fetched.Success? && |fetched.value| == 0
    ensures r.Found? ==> fetched.Success? && r.spell in fetched.value
  {
    match fetched
    case Failure(e) => Failed(DataSourceError(e))
    case Success(spells) =>
      match SpellFilters.Choose(spells, pick)
      case Some(s) => Found(s)
      case None => PanickedOnEmpty
  }

  /** Any element of the list may be returned. */
  lemma GetRandomSpellReachesAll<T, E>(spells: seq<T>, i: nat)
    requires i < |spells|
    ensures GetRandomSpell<T, E>(Success(spells), i) == Found(spells[i])
  {
    SpellFilters.ChooseReachesAll(spells, i);
  }
}
