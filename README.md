# dnd-rs in Dafny

This project models the core of `dnd-rs`, a command-line tool that fetches
tabletop spell data from a remote service and rolls dice expressions. It
models four parts of that core:

- **The two-tier local store** (`LocalDatasources`). There is one batch of
  spells per `u8` key, held twice:
  - the permanent `cache`, with no expiry;
  - the `timeCache`, with a time-to-live.
- **The LRU/TTL cache underneath it** (`LruTimeCache`). This is an abstract
  model: it keeps at most `capacity` keys, evicts the least recently used key
  when it is full, and takes the clock as an explicit reading `now` in
  milliseconds.
- **The two spell use cases**:
  - the cached `RandomSpell` class (`RandomSpells`);
  - the uncached `SpellImplementation` (`SpellUseCase`).
  
  Both share the post-fetch steps (`SpellFilters`): the class filter, the
  level filter, the random pick and the conversion of a query record to a
  `Spell`. The early `SpellRepository` (`SpellsRepository`) is modelled too.
- **Dice**:
  - the parser for `<count>d<face>[+<modifier>]`, with Rust's `u64` parser
    modelled in `RustStr`;
  - the older duplicate of the parser (`DiceRollUseCase`), proved to agree
    with it;
  - `Dice::roll` and `DiceSet` (`DiceSets`);
  - the two `Display` formats, including the CLI one (`CliDisplayDiceSet`
    in the source, `CliDiceSet` here).

**How state is modelled.**
- State that the source updates in place is a Dafny `class` with `modifies`
  clauses: `LocalDatasource`, `RandomSpell`, `DiceSet`, and a counting remote
  source `SpellSource`.
- The parsers, filters and conversions are functions.
- The loops of `Dice::roll`, `DiceSet::roll`, the sum of the map's values and
  `CliDisplayDiceSet::fmt` are methods with loop invariants.
- Each such method is proved against a specification function: `Total`,
  `Rolled`, `MapSum` or `DisplayDiceSet`.

**How randomness and time are modelled.**
- `choose` becomes a supplied `pick: nat`; the element taken is
  `pick % |list|`.
- `rand::random::<u64>()` becomes supplied raw draws.
- Wall-clock time becomes the parameter `now`.
- The remote service becomes `SpellSource`. It answers a settable `answer`
  and counts its calls. For the uncached use case, the remote answer is the
  parameter `fetched`.

**Behaviour one might expect that the code does not have** (the model follows the code):
- `get_all_spells` in `random_spell.rs` has no stale fallback. When the fresh
  read misses and the remote call fails, the error is returned. The permanent
  read is commented out in the source. `RandomSpells.NoStaleFallback` proves
  the failure, and that the permanent tier still holds the earlier batch.
- There is no minimum-level filter. A level `L` keeps `level <= L`, or
  `level == L` in exact mode.
- The class filter runs first and fails with `NoSpellsFound` when it keeps
  nothing.
- The level filter may then keep nothing. In that case `filter_spells`
  returns `Ok([])`, and `NoSpellsFound` only comes later, from the random
  pick or from `get_all_spells_with_filters`.

## Model

| member | source | states |
|---|---|---|
| `LruTimeCache.Empty` | src/datasources/local_datasource.rs:15-22 | a new cache, with or without a TTL, is valid, has the given capacity and TTL, and every read of it misses |
| `LruTimeCache.Insert` | src/datasources/local_datasource.rs:26-31 | an insert keeps the cache within capacity with one slot per key, reads back the new value under its key, never invents a value for another key, and changes no other key when the key was present or there was room; when the key is new and the live slots fill the cache, exactly the least recently used live key is evicted and every other key reads as before |
| `LruTimeCache.Get` | src/datasources/local_datasource.rs:33-50 | a read returns what a lookup at `now` sees, keeps the cache valid, and changes what no key reads at `now` |
| `LruTimeCache.InsertOrder` | src/datasources/local_datasource.rs:26-31 | after an insert the written key is the last (most recently used) slot, stamped `now`; the slots before it are an order-preserving subsequence of the old ones; no expired slot remains |
| `LruTimeCache.GetOrder` | src/datasources/local_datasource.rs:33-50 | after a hit the key is the last (most recently used) slot, re-stamped `now`, and the other slots keep their old relative order; after a miss the slots are an order-preserving subsequence of the old ones; no expired slot remains |
| `LruTimeCache.NewestSurvives` | src/datasources/local_datasource.rs:26-31 | with a capacity of at least two, the most recently used slot is not evicted by the next insert of another key at the same instant |
| `LruTimeCache.WrittenKeySurvives` | src/datasources/local_datasource.rs:26-31 | with a capacity of at least two, a key just written still reads its value after another key is inserted at the same instant |
| `LruTimeCache.ReadKeySurvives` | src/datasources/local_datasource.rs:33-50 | with a capacity of at least two, a key just read still reads the same value after another key is inserted at the same instant |
| `LruTimeCache.LiveSameLookups` | src/datasources/local_datasource.rs:47-50 | dropping the expired slots keeps the cache valid and changes no read at the same instant |
| `LruTimeCache.InsertThenLookup` | src/datasources/local_datasource.rs:62-90 | a value written at `t` is read back at every `now` up to `t + ttl`, and not after; without a TTL, always |
| `LruTimeCache.GetThenLookup` | src/datasources/local_datasource.rs:47-50 | a successful read re-stamps the entry, so it stays readable for another full TTL |
| `LruTimeCache.NoTtlTimeless` | src/datasources/local_datasource.rs:17-18 | in a cache without a TTL, a read does not depend on the clock |
| `LruTimeCache.NoTtlNothingExpires` | src/datasources/local_datasource.rs:17-18 | in a cache without a TTL, no slot ever expires |
| `LocalDatasources.LocalDatasource.constructor` | src/datasources/local_datasource.rs:15-24 | both caches start empty with the same capacity; only `timeCache` has the TTL `duration` |
| `LocalDatasources.LocalDatasource.Insert` | src/datasources/local_datasource.rs:26-31 | the same batch is inserted under the same key in both caches, and both read it back at once; a missing key means 0 |
| `LocalDatasources.LocalDatasource.Get` | src/datasources/local_datasource.rs:33-45 | the permanent value if there is one; otherwise the fresh value, which is copied into the permanent cache; `None` when both miss; states the exact new state of both caches |
| `LocalDatasources.LocalDatasource.GetRecent` | src/datasources/local_datasource.rs:47-50 | the fresh read of the key (0 when missing); the permanent cache is unchanged |
| `LocalDatasources.InsertThenRead` | src/datasources/local_datasource.rs:62-90 | after an insert at `t`, the permanent read returns the batch at any time, and the fresh read returns it until `t + ttl` and nothing after |
| `LocalDatasources.InsertThenGetScenario` | src/datasources/local_datasource.rs:62-75 | after inserting `["test"]` under `None`, reads under `None` and `Some(0)` both return it |
| `LocalDatasources.GetRecentScenario` | src/datasources/local_datasource.rs:77-82 | the fresh read straight after the insert returns the batch |
| `LocalDatasources.GetRecentExpiresScenario` | src/datasources/local_datasource.rs:84-90 | with a TTL of 2 ms, the fresh read 3 ms later misses, while the permanent read still returns the batch |
| `RandomSpells.SpellSource.GetAllSpells` | src/core/usecase/random_spell.rs:13-15 | the remote source returns its answer and counts the call |
| `RandomSpells.RandomSpell.constructor` | src/core/usecase/random_spell.rs:51-58 | the store has capacity 2 and a TTL of `cache_time`, or 1000 ms when it is absent; both caches are empty |
| `RandomSpells.RandomSpell.CacheSpells` | src/core/usecase/random_spell.rs:89-91 | the batch is inserted under key 0 in both caches |
| `RandomSpells.RandomSpell.GetAllSpells` | src/core/usecase/random_spell.rs:78-110 | a fresh hit on key 0 is served without a remote call; a miss makes exactly one call; a successful call is cached under key 0 and returned unchanged; a failure is returned as `DataSourceError` and leaves the permanent cache unchanged; no stale fallback; states the exact new state of both caches |
| `RandomSpells.RandomSpell.GetRandomSpell` | src/core/usecase/random_spell.rs:214-226 | the uncached use case's answer over what `get_all_spells` serves, with the same call count and the same new state of both caches: on a miss with a successful source both tiers take the batch under key 0; otherwise the permanent tier is unchanged and the fresh tier is as the read left it |
| `RandomSpells.PickTwiceWithinTtl` | src/core/usecase/random_spell.rs:214-226 | two random picks within the TTL call the remote source once, and both pick from the same batch |
| `RandomSpells.ReadTwiceWithinTtl` | src/core/usecase/random_spell.rs:78-110 | two reads within the default TTL serve the fetched batch twice with one remote call |
| `RandomSpells.ReadAfterTtl` | src/core/usecase/random_spell.rs:78-110 | a read after the TTL has passed calls the remote source again: two calls in all |
| `RandomSpells.NoStaleFallback` | src/core/usecase/random_spell.rs:93-110 | after the TTL, a failing source fails the read with `DataSourceError`, while the permanent cache still reads back the first batch |
| `SpellFilters.TagMatchesAny` | src/core/usecase/random_spell.rs:117-125 | true exactly when some filter string matches the tag |
| `SpellFilters.AnyTagMatches` | src/core/usecase/random_spell.rs:116-126 | true exactly when some tag and some filter string match |
| `SpellFilters.FilterSpellForClasses` | src/core/usecase/random_spell.rs:112-127 | with no filter every spell passes; otherwise a spell passes exactly when some non-`None` tag has a name or index equal to a filter string |
| `SpellFilters.FilterSpells` | src/core/usecase/random_spell.rs:129-161 | `NoSpellsFound` exactly when no spell passes the class filter; otherwise the order-preserving filter of the input by both tests (`==` in exact mode, `<=` otherwise), which may be empty |
| `SpellFilters.FilterSpellsFacts` | src/core/usecase/random_spell.rs:136-160 | the class filter followed by the level filter is the same as one filter by both tests |
| `SpellFilters.FilterSpellsSelects` | src/core/usecase/random_spell.rs:129-161 | what is kept is a subsequence of the input; everything kept passes both tests; every spell that passes both is kept |
| `SpellFilters.Choose` | src/core/usecase/random_spell.rs:167 | `None` exactly on an empty list; otherwise an element of the list |
| `SpellFilters.ChooseReachesAll` | src/core/usecase/random_spell.rs:167 | every element is the choice of some `pick` |
| `SpellFilters.RandomSpell` | src/core/usecase/random_spell.rs:163-171 | `NoSpellsFound` exactly on an empty list; otherwise an element of it |
| `SpellFilters.ToSpell` | src/core/usecase/random_spell.rs:173-207 | the name is the name, else the index, else `""`; the level is kept; a missing desc becomes `[]` and each missing line `""`; each class becomes its name, else its index, else `""`; the lengths are kept |
| `SpellUseCase.GetAllSpells` | lib/src/core/usecase/spell.rs:62-74 | the one fetch's list is returned, and its error is wrapped as `DataSourceError` |
| `SpellUseCase.GetRandomSpell` | lib/src/core/usecase/spell.rs:178-190 | fetch errors are wrapped; a success happens exactly when some fetched spell passes both filters, and it is that spell converted; otherwise `NoSpellsFound` |
| `SpellUseCase.GetRandomSpellReachesAll` | lib/src/core/usecase/spell.rs:127-135 | every spell that passes both filters is the answer for some `pick` |
| `SpellUseCase.GetSpellByName` | lib/src/core/usecase/spell.rs:192-218 | after lowercasing then trimming the query: `NoSpellsFound` exactly when no spell's normalised name or index (missing reads as `""`) equals it; otherwise the first match in list order, converted; fetch errors are wrapped |
| `SpellUseCase.GetSpellByNameNormalizes` | lib/src/core/usecase/spell.rs:193 | normalising the query first changes nothing |
| `SpellUseCase.BlankQueryMatchesMissingField` | lib/src/core/usecase/spell.rs:198-211 | an all-blank query matches any spell whose name or index is missing |
| `SpellUseCase.GetAllSpellsWithFilters` | lib/src/core/usecase/spell.rs:220-235 | never an empty success; fetch errors are wrapped; otherwise `NoSpellsFound` exactly when no spell passes both filters, else every passing spell in list order, converted, with the same length |
| `SpellUseCase.NothingPassesNothingKept` | lib/src/core/usecase/spell.rs:100-107 | when the class filter keeps nothing, no spell passes both filters |
| `SpellsRepository.GetRandomSpell` | src/spells/spells_repository.rs:36-44 | a fetch error is wrapped as `DataSourceError`; an empty list is the `unwrap` panic; otherwise an element of the fetched list, with no filtering |
| `SpellsRepository.GetRandomSpellReachesAll` | src/spells/spells_repository.rs:38-41 | any element of the list can be returned |
| `Seqs.Filter` | lib/src/core/usecase/spell.rs:195-213 | the result is no longer than the input, holds only input elements that satisfy the predicate, and holds every input element that does |
| `Seqs.Map` | lib/src/core/usecase/spell.rs:230-233 | same length, applied pointwise |
| `Seqs.FilterIsSubsequence` | src/core/usecase/random_spell.rs:136-139 | a filter keeps an order-preserving subsequence, and keeps every element that satisfies the predicate |
| `Seqs.FilterFilter` | src/core/usecase/random_spell.rs:136-156 | filtering twice is filtering once by the conjunction |
| `Seqs.FilterFirst` | lib/src/core/usecase/spell.rs:214-216 | the first element kept is the first element of the input that satisfies the predicate |
| `RustStr.Split` | lib/src/core/usecase/dice.rs:26 | `str::split` on one character: never empty, and no piece contains the separator |
| `RustStr.JoinSplit` | lib/src/core/usecase/dice.rs:43 | joining the pieces of a split gives back the string |
| `RustStr.SplitCount` | lib/src/core/usecase/dice.rs:43 | a split has one more piece than there are separators |
| `RustStr.SplitJoin` | lib/src/core/usecase/dice.rs:43 | splitting the join of separator-free pieces gives back the pieces |
| `RustStr.SplitAt` | lib/src/core/usecase/dice.rs:26-27 | a string with one separator splits into the parts on either side |
| `RustStr.SplitUnlines` | cli/src/entity/dice_set.rs:25-33 | lines without newlines, each ended by a newline, split back into those lines and a final `""` |
| `RustStr.ToLower` | lib/src/core/usecase/dice.rs:26 | ASCII `to_lowercase`: same length, each character lowercased |
| `RustStr.ToLowerIdempotent` | lib/src/core/usecase/spell.rs:193 | lowercasing twice is lowercasing once |
| `RustStr.TrimIdempotent` | lib/src/core/usecase/spell.rs:193 | trimming twice is trimming once |
| `RustStr.TrimNoWhitespaceEnds` | lib/src/core/usecase/spell.rs:193 | a trimmed string neither starts nor ends with whitespace |
| `RustStr.Trim` | lib/src/core/usecase/spell.rs:193 | the trimmed string is a slice of the input with only whitespace cut on either side, and it neither starts nor ends with whitespace |
| `RustStr.NormalizeIdempotent` | lib/src/core/usecase/spell.rs:193 | lowercase-then-trim applied twice is the same as once |
| `RustStr.ParseDigits` | lib/src/core/usecase/dice.rs:28 | the digit loop of `u64::from_str` succeeds only on an all-digit string, and only with a value within `u64` |
| `RustStr.DecimalValueSnoc` | lib/src/core/usecase/dice.rs:28 | the positional value of a digit string is ten times the value of its prefix plus the last digit |
| `RustStr.ParseDigitsValue` | lib/src/core/usecase/dice.rs:28 | on a digit string the loop returns the string's positional value when it is at most `u64::MAX`, and `PosOverflow` when it is larger |
| `RustStr.DecimalValueNatToString` | cli/src/entity/dice_set.rs:9-12 | the decimal form of a number denotes that number |
| `RustStr.ParseDigitsNatToString` | lib/src/core/usecase/dice.rs:28 | the digit loop reads the decimal form of any `u64` value back to that value |
| `RustStr.ParseU64` | lib/src/core/usecase/dice.rs:28 | `u64::from_str`: `Empty` exactly on the empty string; it succeeds exactly when, after one optional leading `'+'`, a non-empty run of digits remains whose value is at most `u64::MAX`, and the result is that value; a digit run past `u64::MAX` is `PosOverflow` |
| `RustStr.ParseU64Examples` | lib/src/core/usecase/dice.rs:28 | `"+6"` parses to 6 and `"007"` to 7 |
| `RustStr.ParseU64TooLong` | lib/src/core/usecase/dice.rs:28 | more than twenty digits without a leading zero overflow |
| `RustStr.ParseDigitsShort` | lib/src/core/usecase/dice.rs:28 | up to 19 digits always fit in a `u64` |
| `RustStr.ParseU64FirstInvalid` | lib/src/core/usecase/dice.rs:106-123 | a non-digit after a short run of digits gives `InvalidDigit` |
| `RustStr.ParseU64NatToString` | cli/src/entity/dice_set.rs:9-12 | the decimal form of a `u64` parses back to it |
| `RustStr.NatToString` | archive/src/core/entity/dice_set.rs:61 | `{}` of a number: non-empty, all digits, no leading zero |
| `RustStr.NatToStringChars` | cli/src/entity/dice_set.rs:9-12 | a decimal form is non-empty and all digits |
| `DiceSets.Dice.Roll` | archive/src/core/entity/dice_set.rs:20-27 | the loop sums one face `draw % face + 1` per die, then adds the modifier; the result is `Total`, within `[count + mod, count * face + mod]` |
| `DiceSets.DrawSumBounds` | archive/src/core/entity/dice_set.rs:22-25 | each die shows a face in `[1, face]` |
| `DiceSets.TotalBounds` | archive/src/core/entity/dice_set.rs:20-27 | a roll lies in `[count + mod, count * face + mod]`; a missing modifier counts as 0 |
| `DiceSets.RollNoDice` | archive/src/core/entity/dice_set.rs:20-27 | `0d0+3` rolls to 3: with no dice the face is never used |
| `DiceSets.RollD20PlusTwo` | archive/src/core/entity/dice_set.rs:83-87 | `1d20+2` rolls strictly above 2 and at most 22 |
| `DiceSets.MapSumRemove` | archive/src/core/entity/dice_set.rs:55 | the sum of a map's values does not depend on the order they are taken in |
| `DiceSets.MapSumBound` | archive/src/core/entity/dice_set.rs:55 | each value is at most the sum |
| `DiceSets.MapSumSingleton` | archive/src/core/entity/dice_set.rs:89-94 | a one-entry map sums to its value |
| `DiceSets.SumValues` | archive/src/core/entity/dice_set.rs:55 | `values().sum()` computes the order-independent sum |
| `DiceSets.RollEach` | archive/src/core/entity/dice_set.rs:49-53 | every key rolled once, in any order, into a new map over the same keys |
| `DiceSets.DiceSet.constructor` | archive/src/core/entity/dice_set.rs:37-46 | every distinct die maps to 0, duplicates collapse to one key, and the result is 0 |
| `DiceSets.DiceSet.Roll` | archive/src/core/entity/dice_set.rs:48-56 | the same key set, each value a roll of its die, and `result` the sum of the new values |
| `DiceSets.RollSetD20PlusTwo` | archive/src/core/entity/dice_set.rs:89-94 | a set holding `1d20+2` totals strictly above 2 and at most 22 |
| `DiceSets.DisplayModifier` | archive/src/core/entity/dice_set.rs:62-64 | `"+{mod}"` exactly when there is a modifier, and nothing otherwise |
| `DiceSets.DisplayDiceNoNewline` | archive/src/core/entity/dice_set.rs:59-67 | a displayed die is on one line |
| `DiceSets.DisplayDiceSetLines` | archive/src/core/entity/dice_set.rs:69-77 | the display is the total line, then one `"\|---{dice}: \t{roll}"` line per map entry in iteration order, each ended by a newline |
| `DiceSets.AllLinesNoNewline` | archive/src/core/entity/dice_set.rs:69-77 | no displayed line contains a newline |
| `CliDiceSet.FormatDice` | cli/src/entity/dice_set.rs:7-15 | `CliDisplayDice` prints exactly what `Display for Dice` prints |
| `CliDiceSet.FormatDiceRoundTrip` | cli/src/entity/dice_set.rs:7-15 | a formatted die parses back with `parse_dice_string` to the same die |
| `CliDiceSet.FormatDiceSet` | cli/src/entity/dice_set.rs:25-33 | the loop lists every map entry once; the output is the total line, then one entry line per entry; there are `1 + \|dice_map\|` lines (and the final empty piece after the last newline), the first being `"Total: \t\t{result}"` |
| `CliDiceSet.ListOneMore` | cli/src/entity/dice_set.rs:28-30 | one more entry printed keeps the printed and remaining dice a partition of the keys |
| `CliDiceSet.ListedAll` | cli/src/entity/dice_set.rs:28-30 | when nothing remains, every key has been printed exactly once |
| `CliDiceSet.AppendEntry` | cli/src/entity/dice_set.rs:28-30 | writing one more entry line extends the display by exactly that line |
| `DiceUseCase.ParseDiceCountAndFace` | lib/src/core/usecase/dice.rs:25-40 | `InvalidDiceString` with the original string exactly when the lowercased string does not have exactly one `'d'`; otherwise only count or face errors |
| `DiceUseCase.ParseDiceCountAndFaceParts` | lib/src/core/usecase/dice.rs:27-36 | at the one `'d'`, a count error comes first, then a face error, else both numbers |
| `DiceUseCase.ParseDiceString` | lib/src/core/usecase/dice.rs:42-66 | two or more `'+'` give `InvalidDiceString`; an `unwrap` panic needs exactly one `'+'`; a modifier is present exactly when there is one `'+'` |
| `DiceUseCase.ParseDiceStringNoModifier` | lib/src/core/usecase/dice.rs:56-63 | without `'+'`, the die has no modifier and its errors are returned |
| `DiceUseCase.ParseDiceStringWithModifier` | lib/src/core/usecase/dice.rs:44-55 | with one `'+'`, a bad die part panics whatever the modifier is; otherwise a bad modifier is `ParseModifierError`, else the die with `Some(m)` |
| `DiceUseCase.ParseAll` | lib/src/core/usecase/dice.rs:68-75 | never an error; returns exactly when every string parses, with the dice in order |
| `DiceUseCase.ParseAllFirstFailure` | lib/src/core/usecase/dice.rs:70-73 | the panic carries the error of the first string that does not parse |
| `DiceUseCase.Parse` | lib/src/core/usecase/dice.rs:68-75 | a fresh set keyed by the parsed dice, all at 0, or the panic of the first bad string |
| `DiceUseCase.Roll` | lib/src/core/usecase/dice.rs:79-83 | the parsed set rolled once: the same keys, each value a roll, `result` the sum; it never returns an error |
| `DiceUseCase.ParsesAs` | lib/src/core/usecase/dice.rs:97-101 | the decimal form of a number parses to it |
| `DiceUseCase.CountAndFaceOneDSix` | lib/src/core/usecase/dice.rs:99 | `"1d6"` gives `(1, 6)` |
| `DiceUseCase.CountAndFaceUpperD` | lib/src/core/usecase/dice.rs:100 | `"2D6"` gives `(2, 6)` |
| `DiceUseCase.CountAndFaceMissingFace` | lib/src/core/usecase/dice.rs:108-111 | `"1d"` gives a face error for empty input |
| `DiceUseCase.CountAndFaceBadFace` | lib/src/core/usecase/dice.rs:112-115 | `"1dU"` gives a face error for an invalid digit |
| `DiceUseCase.CountAndFaceMissingCount` | lib/src/core/usecase/dice.rs:116-119 | `"d1"` gives a count error for empty input |
| `DiceUseCase.CountAndFaceBadCount` | lib/src/core/usecase/dice.rs:120-123 | `"Ud1"` gives a count error for an invalid digit |
| `DiceUseCase.CountAndFaceWithoutD` | lib/src/core/usecase/dice.rs:124-131 | `""` and `"mememe"` give `InvalidDiceString` with themselves |
| `DiceUseCase.DiceStringWithModifier` | lib/src/core/usecase/dice.rs:137-144 | `"1d6+1"` gives `{1, 6, Some(1)}` |
| `DiceUseCase.DiceStringWithoutModifier` | lib/src/core/usecase/dice.rs:145-152 | `"1d6"` gives `{1, 6, None}` |
| `DiceUseCase.DiceStringBadModifier` | lib/src/core/usecase/dice.rs:160-163 | `"1d2+U"` gives a modifier error for an invalid digit |
| `DiceUseCase.DiceStringEmptyModifier` | lib/src/core/usecase/dice.rs:164-167 | `"1d2+"` gives a modifier error for empty input |
| `DiceUseCase.CountAndFaceOneDTwo` | lib/src/core/usecase/dice.rs:160-167 | `"1d2"` gives `(1, 2)` |
| `DiceUseCase.DiceStringWithoutD` | lib/src/core/usecase/dice.rs:168-175 | `""` and `"mememe"` give `InvalidDiceString` with themselves |
| `DiceUseCase.ParseAllOne` | lib/src/core/usecase/dice.rs:68-75 | `parse` of one string is its die, or the panic on its error |
| `DiceUseCase.CommandLineTwoDice` | cli/tests/test_dice_api.rs:22-30 | `["1d6+3", "2d3"]` parses to `1d6+3` and `2d3` |
| `DiceUseCase.DiceStringOneDSixPlusThree` | cli/tests/test_dice_api.rs:3-11 | `"1d6+3"` gives `{1, 6, Some(3)}` |
| `DiceUseCase.DiceStringTwoDThree` | cli/tests/test_dice_api.rs:22-30 | `"2d3"` gives `{2, 3, None}` |
| `DiceUseCase.CommandLineNegativeModifier` | cli/tests/test_dice_api.rs:32-40 | `"1d6-3"` fails with a `u64` parse error |
| `DiceUseCase.DiceStringNegativeModifier` | cli/tests/test_dice_api.rs:32-40 | without a `'+'`, `"6-3"` is read as the face, and is an invalid digit |
| `DiceUseCase.CountAndFaceDashedFace` | cli/tests/test_dice_api.rs:32-40 | `"1d6-3"` gives a face error for an invalid digit |
| `DiceUseCase.CommandLineNegativeCount` | cli/tests/test_dice_api.rs:42-50 | the quoted `'-1d6+3'` panics with a count error |
| `DiceUseCase.DiceStringNegativeCount` | cli/tests/test_dice_api.rs:42-50 | the die part `'-1d6` is unwrapped and panics |
| `DiceUseCase.CountAndFaceQuotedCount` | cli/tests/test_dice_api.rs:42-50 | `'-1d6` gives a count error for an invalid digit |
| `DiceUseCase.CommandLineNegativeFace` | cli/tests/test_dice_api.rs:52-60 | `"1d-6+3"` panics with a face error |
| `DiceUseCase.CountAndFaceNegativeFace` | cli/tests/test_dice_api.rs:52-60 | `"1d-6"` gives a face error for an invalid digit |
| `DiceUseCase.CommandLineWrongSeparator` | cli/tests/test_dice_api.rs:62-70 | `"1x6+3"` panics with `InvalidDiceString("1x6")` |
| `DiceUseCase.CommandLineCommaSeparated` | cli/tests/test_dice_api.rs:72-80 | `"1d6+3,2d3"` fails with a `u64` parse error of the modifier |
| `DiceUseCase.DiceStringCommaSeparated` | cli/tests/test_dice_api.rs:72-80 | the modifier `"3,2d3"` is an invalid digit |
| `DiceRollUseCase.ParseDiceCountAndFace` | src/core/usecase/dice_roll.rs:25-42 | the older parser succeeds exactly when the newer one does, with the same numbers, and fails with the renamed error |
| `DiceRollUseCase.ParseDiceString` | src/core/usecase/dice_roll.rs:44-68 | the same outcome as the newer parser on every string, up to renaming the error |
| `DiceRollUseCase.ParseAll` | src/core/usecase/dice_roll.rs:70-77 | the same outcome as the newer `parse` on every list, up to renaming |
| `DiceRollUseCase.Roll` | src/core/usecase/dice_roll.rs:80-86 | the parsed set rolled once, with the same keys, rolls and sum as the newer use case, or the renamed panic |

## Left out

- **Remote transport.** The GraphQL/HTTP datasources and the generated query types are not modelled. A remote source is a `SpellSource`, which returns a settable answer and counts its calls, or it is a `fetched` parameter.
- **Configuration, the CLI, the UI and the binaries.** Settings loading, clap parsing, `println!` and the Yew components are not modelled.
  - The CLI splits its dice argument on spaces before `roll` sees it, so the test with one space-separated argument is not modelled. The list-of-arguments form is modelled: `DiceUseCase.CommandLineTwoDice`.
- **Spell text rendering** (`CliDisplaySpell`, `SpellModel`) is not modelled.
- **`crate::datasources::common::local_datasource` is not part of this model.** `random_spell.rs` imports its `LocalDatasource` from there and calls `get_recent(0)` and `insert(spells, 0)` with bare keys. The model takes it to be `src/datasources/local_datasource.rs`, with the key `0` passed as `Some(0)`.
- **`lib/src/core/entity/dice_set.rs` is not part of this model.** The lib's `Dice` and `DiceSet` are taken to be `archive/src/core/entity/dice_set.rs`, which has the same fields.
- **The `lru_time_cache` crate cannot be seen.** `LruTimeCache` is an abstract model of it. Some of its behaviour is assumed:
  - expired entries are purged by every operation;
  - a successful `get` re-stamps the entry and marks it most recently used (the model proves this in `GetOrder`, but that the crate does it is an assumption);
  - a capacity of 0 is excluded.
- **Wall-clock time is the explicit parameter `now`.** The sleep in `test_get_recent_expires` is a later clock reading.
- **Randomness.** `thread_rng().choose` is the supplied `pick`, and `rand::random::<u64>()` is supplied draws. Distribution is not modelled, only membership and bounds.
- **`f64` levels are modelled as integers.** NaN and `-0.0` are not modelled.
- **`to_lowercase` and `trim` are ASCII only.** Unicode case mapping and Unicode whitespace are not modelled.
- **The error types.**
  - `RandomSpellError` and the lib's `SpellError` have the same shape, so both are `Spells.SpellError`.
  - The two `SpellsDataSourceError` enums are one type, `Spells.SpellsDataSourceError`.
  - `ParseIntError` is its kind: `Empty`, `InvalidDigit` or `PosOverflow`.
- **The duplicated code in `random_spell.rs` and `lib/src/core/usecase/spell.rs`.** The filter, the pick and the conversion are modelled once, in `SpellFilters`.
- **`LocalDatasource::persist`** is a `todo!()` stub and is not modelled.
- **Iteration order.** The order in which a `HashMap` is iterated for display is the output `order` of `CliDiceSet.FormatDiceSet`, and is a parameter of `DiceSets.DisplayDiceSet`. The two loops of `DiceSet::roll` take the dice in an arbitrary order.
- `DiceSets.Dice.Roll`: requires `face > 0` whenever `diceCount > 0`, because rolling a die with 0 faces is a modulo-by-zero panic that is not modelled; with no dice the face is never used, and any face is allowed.
- `DiceSets.Dice.Roll`: requires that the sum fits in a `u64`. A debug build panics on overflow and a release build wraps around; neither is modelled.
- `DiceSets.DiceSet.Roll`: requires the same two conditions for every die, and a total that fits in a `u64`.
- `DiceUseCase.Roll`: requires, through `CanRollAll`, the same conditions for every parsed die.
- `DiceRollUseCase.Roll`: requires, through `CanRollAll`, the same conditions for every parsed die.
