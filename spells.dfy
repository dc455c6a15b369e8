/**
 * Spell records as the remote list delivers them, the display-ready `Spell`
 * they are converted to, and the error enums of the spell use cases.
 * Levels are integers.
 */
module Spells {
  import opened Wrappers

  /** A class tag of a spell; either field may be missing. */
  datatype ClassTag = ClassTag(index: Option<string>, name: Option<string>)

  /** `SpellsQuerySpells`: one record of the remote spell list. */
  datatype SpellsQuerySpells = SpellsQuerySpells(
    name: Option<string>,
    level: int,
    desc: Option<seq<Option<string>>>,
    url: Option<string>,
    index: Option<string>,
    classes: Option<seq<Option<ClassTag>>>)

  /** `Spell`: the converted entity handed to the presentation layer. */
  datatype Spell = Spell(name: string, level: int, desc: seq<string>, classes: seq<string>)

  /** The transport's `APIError`; its content is opaque to the core. */
  datatype ApiError = ApiError(message: string)

  /** `SpellsDataSourceError`: what a fetch of the remote list can fail with. */
  datatype SpellsDataSourceError = GraphQLError(api: ApiError) | SourceNoSpellsFound

  datatype LocalSpellsDataSourceError = CacheEmpty | RecentCacheEmpty

  /** `SpellError` (and the identical `RandomSpellError` of the cached use case). */
  datatype SpellError =
    | NoSpellsFound
    | DataSourceError(source: SpellsDataSourceError)
    | LocalDataSourceError(local: LocalSpellsDataSourceError)
}
