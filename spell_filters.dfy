/**
 * The post-fetch steps shared by both spell use cases: the class filter,
 * the level filter, the random pick and the conversion to `Spell`.
 */
module SpellFilters {
  import opened Wrappers
  import opened Spells
  import Seqs

  /** A tag matches a filter string when it is present and its name or index equals it exactly. */
  predicate TagMatches(tag: Option<ClassTag>, filter: string) {
    match tag
    case Some(t) => t.name == Some(filter) || t.index == Some(filter)
    case None => false
  }

  /** `classes.iter().any(...)` for one tag. */
  function TagMatchesAny(tag: Option<ClassTag>, classes: seq<string>): (b: bool)
    ensures b <==> exists j :: 0 <= j < |classes| && TagMatches(tag, classes[j])
  {
    |classes| > 0 && (TagMatches(tag, classes[0]) || TagMatchesAny(tag, classes[1..]))
  }

  /** `spell.classes.iter().flatten().any(...)`. */
  function AnyTagMatches(tags: seq<Option<ClassTag>>, classes: seq<string>): (b: bool)
    ensures b <==> exists i, j :: 0 <= i < |tags| && 0 <= j < |classes| && TagMatches(tags[i], classes[j])
  {
    |tags| > 0 && (TagMatchesAny(tags[0], classes) || AnyTagMatches(tags[1..], classes))
  }

  /** The spell carries some tag whose name or index is one of `classes`. */
  ghost predicate HasClass(spell: SpellsQuerySpells, classes: seq<string>) {
    && spell.classes.Some?
    && exists i, j :: 0 <= i < |spell.classes.value| && 0 <= j < |classes|
         && TagMatches(spell.classes.value[i], classes[j])
  }

  /** `filter_spell_for_classes`: with no class filter every spell passes. */
  function FilterSpellForClasses(spell: SpellsQuerySpells, classes: seq<string>): (b: bool)
    ensures b <==> |classes| == 0 || HasClass(spell, classes)
  {
    if |classes| == 0 then true
    else match spell.classes
      case None => false
      case Some(tags) => AnyTagMatches(tags, classes)
  }

  /** The level test: `== level` in exact mode, `<= level` otherwise, none without a level. */
  predicate LevelMatches(spell: SpellsQuerySpells, level: Option<int>, exactLevel: bool) {
    match level
    case None => true
    case Some(l) => if exactLevel then spell.level == l else spell.level <= l
  }

  predicate Selected(spell: SpellsQuerySpells, level: Option<int>, classes: seq<string>, exactLevel: bool) {
    FilterSpellForClasses(spell, classes) && LevelMatches(spell, level, exactLevel)
  }

  /**
   * `filter_spells`: the class filter first, which fails with `NoSpellsFound`
   * when it keeps nothing; then the level filter, which may keep nothing.
   */
  function FilterSpells(spells: seq<SpellsQuerySpells>, level: Option<int>, classes: seq<string>, exactLevel: bool)
    : (r: Result<seq<SpellsQuerySpells>, SpellError>)
    ensures r.Failure? <==> forall i :: 0 <= i < |spells| ==> !FilterSpellForClasses(spells[i], classes)
    ensures r.Failure? ==> r.error == NoSpellsFound
    ensures r.Success? ==>
              r.value == Seqs.Filter(spells, (s: SpellsQuerySpells) => Selected(s, level, classes, exactLevel))
  {
    var byClass := Seqs.Filter(spells, (s: SpellsQuerySpells) => FilterSpellForClasses(s, classes));
    FilterSpellsFacts(spells, level, classes, exactLevel, byClass);
    if |byClass| == 0 then Failure(NoSpellsFound)
    else match level
      case None => Success(byClass)
      case Some(l) =>
        if exactLevel then Success(Seqs.Filter(byClass, (s: SpellsQuerySpells) => s.level == l))
        else Success(Seqs.Filter(byClass, (s: SpellsQuerySpells) => s.level <= l))
  }

  lemma FilterSpellsFacts(spells: seq<SpellsQuerySpells>, level: Option<int>, classes: seq<string>, exactLevel: bool,
                          byClass: seq<SpellsQuerySpells>)
    requires byClass == Seqs.Filter(spells, (s: SpellsQuerySpells) => FilterSpellForClasses(s, classes))
    ensures |byClass| == 0 <==> forall i :: 0 <= i < |spells| ==> !FilterSpellForClasses(spells[i], classes)
    ensures var selected := (s: SpellsQuerySpells) => Selected(s, level, classes, exactLevel);
      match level
      case None => byClass == Seqs.Filter(spells, selected)
      case Some(l) =>
        if exactLevel then Seqs.Filter(byClass, (s: SpellsQuerySpells) => s.level == l) == Seqs.Filter(spells, selected)
        else Seqs.Filter(byClass, (s: SpellsQuerySpells) => s.level <= l) == Seqs.Filter(spells, selected)
  {
    var byClassP := (s: SpellsQuerySpells) => FilterSpellForClasses(s, classes);
    var selected := (s: SpellsQuerySpells) => Selected(s, level, classes, exactLevel);
    if |byClass| > 0 {
      assert byClass[0] in spells;
    }
    match level
    case None =>
      Seqs.FilterFilter(spells, byClassP, (s: SpellsQuerySpells) => true, selected);
      NoOpFilter(byClass);
    case Some(l) =>
      if exactLevel {
        Seqs.FilterFilter(spells, byClassP, (s: SpellsQuerySpells) => s.level == l, selected);
      } else {
        Seqs.FilterFilter(spells, byClassP, (s: SpellsQuerySpells) => s.level <= l, selected);
      }
  }

  lemma {:induction false} NoOpFilter(s: seq<SpellsQuerySpells>)
    ensures Seqs.Filter(s, (x: SpellsQuerySpells) => true) == s
  {
    if |s| > 0 {
      NoOpFilter(s[1..]);
    }
  }

  /**
   * What `filter_spells` keeps is an order-preserving subsequence of its
   * input, made of exactly the spells that pass both filters.
   */
  lemma FilterSpellsSelects(spells: seq<SpellsQuerySpells>, level: Option<int>, classes: seq<string>, exactLevel: bool)
    requires FilterSpells(spells, level, classes, exactLevel).Success?
    ensures var kept := FilterSpells(spells, level, classes, exactLevel).value;
      && Seqs.IsSubsequence(kept, spells)
      && (forall i :: 0 <= i < |kept| ==> Selected(kept[i], level, classes, exactLevel))
      && (forall i :: 0 <= i < |spells| && Selected(spells[i], level, classes, exactLevel) ==> spells[i] in kept)
  {
    Seqs.FilterIsSubsequence(spells, (s: SpellsQuerySpells) => Selected(s, level, classes, exactLevel));
  }

  /** `slice.choose(rng)`, with the generator's output supplied as `pick`. */
  function Choose<T>(s: seq<T>, pick: nat): (r: Option<T>)
    ensures r.None? <==> |s| == 0
    ensures r.Some? ==> r.value in s
  {
    if |s| == 0 then None else Some(s[pick % |s|])
  }

  /** Every element can be the one chosen. */
  lemma ChooseReachesAll<T>(s: seq<T>, i: nat)
    requires i < |s|
    ensures Choose(s, i) == Some(s[i])
  {
  }

  /** `get_random_spell` on a filtered list: an element of it, or `NoSpellsFound` when it is empty. */
  function RandomSpell(spells: seq<SpellsQuerySpells>, pick: nat): (r: Result<SpellsQuerySpells, SpellError>)
    ensures r.Failure? <==> |spells| == 0
    ensures r.Failure? ==> r.error == NoSpellsFound
    ensures r.Success? ==> r.value in spells
  {
    match Choose(spells, pick)
    case Some(s) => Success(s)
    case None => Failure(NoSpellsFound)
  }

  /** A class tag as shown: its name, else its index, else the empty string. */
  function ClassLabel(tag: Option<ClassTag>): string {
    match tag
    case Some(t) => t.name.GetOr(t.index.GetOr(""))
    case None => ""
  }

  function DescLine(line: Option<string>): string {
    line.GetOr("")
  }

  /**
   * `spell_from_spells_query_spells`: the name falls back to the index and
   * then to `""`, every missing description line and class label becomes
   * `""`, and a missing list becomes empty.
   */
  function ToSpell(q: SpellsQuerySpells): (r: Spell)
    ensures r.level == q.level
    ensures r.name == if q.name.Some? then q.name.value else if q.index.Some? then q.index.value else ""
    ensures q.desc.None? ==> r.desc == []
    ensures q.desc.Some? ==> |r.desc| == |q.desc.value|
    ensures q.desc.Some? ==> forall i :: 0 <= i < |r.desc| ==>
              r.desc[i] == if q.desc.value[i].Some? then q.desc.value[i].value else ""
    ensures q.classes.None? ==> r.classes == []
    ensures q.classes.Some? ==> |r.classes| == |q.classes.value|
    ensures q.classes.Some? ==> forall i :: 0 <= i < |r.classes| ==> r.classes[i] == ClassLabel(q.classes.value[i])
  {
    Spell(
      name := q.name.GetOr(q.index.GetOr("")),
      level := q.level,
      desc := match q.desc case Some(lines) => Seqs.Map(lines, DescLine) case None => [],
      classes := match q.classes case Some(tags) => Seqs.Map(tags, ClassLabel) case None => [])
  }
}
