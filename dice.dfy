/**
 * The dice-expression parser `<count>d<face>[+<modifier>]` and the roll use
 * case. Each number is read by Rust's `u64` parser. A `Panicked` outcome
 * stands for an `unwrap` of an error.
 */
module DiceUseCase {
  import opened Wrappers
  import opened RustStr
  import opened DiceSets

  datatype DiceError =
    | ParseDiceCountError(count: IntErrorKind)
    | ParseFaceError(face: IntErrorKind)
    | ParseModifierError(modifier: IntErrorKind)
    | InvalidDiceString(text: string)

  /**
   * `parse_dice_count_and_face`: the lowercased string must split on `'d'`
   * into exactly two pieces, the count and then the face.
   */
  function ParseDiceCountAndFace(s: string): (r: Result<(u64, u64), DiceError>)
    ensures r == Failure(InvalidDiceString(s)) <==> CountOf(ToLower(s), 'd') != 1
    ensures r.Failure? ==> r.error.ParseDiceCountError? || r.error.ParseFaceError? || r.error == InvalidDiceString(s)
  {
    SplitCount(ToLower(s), 'd');
    var pieces := Split(ToLower(s), 'd');
    if |pieces| != 2 then
      Failure(InvalidDiceString(s))
    else
      match ParseU64(pieces[0])
      case Failure(e) => Failure(ParseDiceCountError(e))
      case Success(count) =>
        match ParseU64(pieces[1])
        case Failure(e) => Failure(ParseFaceError(e))
        case Success(face) => Success((count, face))
  }

  /**
   * With the lowercased string cut at its one `'d'` into `a` and `b`: the
   * count error comes first, then the face error, else both numbers.
   */
  lemma ParseDiceCountAndFaceParts(s: string, a: string, b: string)
    requires ToLower(s) == a + "d" + b && 'd' !in a && 'd' !in b
    ensures ParseU64(a).Failure? ==> ParseDiceCountAndFace(s) == Failure(ParseDiceCountError(ParseU64(a).error))
    ensures ParseU64(a).Success? && ParseU64(b).Failure? ==>
              ParseDiceCountAndFace(s) == Failure(ParseFaceError(ParseU64(b).error))
    ensures ParseU64(a).Success? && ParseU64(b).Success? ==>
              ParseDiceCountAndFace(s) == Success((ParseU64(a).value, ParseU64(b).value))
  {
    SplitAt(a, b, 'd');
    SplitNoSep(b, 'd');
  }

  /**
   * `parse_dice_string`: split on `'+'`. One piece is a die without a
   * modifier; two are a die and its modifier, where the die part is
   * unwrapped before the modifier is read; more is an invalid string.
   */
  function ParseDiceString(s: string): (r: Outcome<Dice, DiceError>)
    ensures CountOf(s, '+') >= 2 ==> r == Errored(InvalidDiceString(s))
    ensures r.Panicked? ==> CountOf(s, '+') == 1
    ensures r.Returned? ==> (r.value.modifier.Some? <==> CountOf(s, '+') == 1)
  {
    SplitCount(s, '+');
    var parts := Split(s, '+');
    if |parts| == 2 then
      match ParseDiceCountAndFace(parts[0])
      case Failure(e) => Panicked(e)
      case Success((count, face)) =>
        match ParseU64(parts[1])
        case Failure(e) => Errored(ParseModifierError(e))
        case Success(m) => Returned(Dice(count, face, Some(m)))
    else if |parts| == 1 then
      match ParseDiceCountAndFace(parts[0])
      case Failure(e) => Errored(e)
      case Success((count, face)) => Returned(Dice(count, face, None))
    else
      Errored(InvalidDiceString(s))
  }

  /** Without `'+'` the string is a die with no modifier, and its errors are returned. */
  lemma ParseDiceStringNoModifier(s: string)
    requires '+' !in s
    ensures var cf := ParseDiceCountAndFace(s);
      && (cf.Failure? ==> ParseDiceString(s) == Errored(cf.error))
      && (cf.Success? ==> ParseDiceString(s) == Returned(Dice(cf.value.0, cf.value.1, None)))
  {
    SplitNoSep(s, '+');
  }

  /**
   * With one `'+'` between `dice` and `m`: a bad die panics whatever `m` is;
   * otherwise a bad modifier is returned as an error.
   */
  lemma ParseDiceStringWithModifier(s: string, dice: string, m: string)
    requires s == dice + "+" + m && '+' !in dice && '+' !in m
    ensures var cf := ParseDiceCountAndFace(dice);
      && (cf.Failure? ==> ParseDiceString(s) == Panicked(cf.error))
      && (cf.Success? && ParseU64(m).Failure? ==> ParseDiceString(s) == Errored(ParseModifierError(ParseU64(m).error)))
      && (cf.Success? && ParseU64(m).Success? ==>
            ParseDiceString(s) == Returned(Dice(cf.value.0, cf.value.1, Some(ParseU64(m).value))))
  {
    SplitAt(dice, m, '+');
    SplitNoSep(m, '+');
  }

  /**
   * `parse`: every string is parsed in order and unwrapped, so the first
   * one that does not parse panics with its error; otherwise the dice, in
   * order. It never returns an error.
   */
  function ParseAll(strings: seq<string>): (r: Outcome<seq<Dice>, DiceError>)
    ensures !r.Errored?
    ensures r.Returned? <==> forall i :: 0 <= i < |strings| ==> ParseDiceString(strings[i]).Returned?
    ensures r.Returned? ==> |r.value| == |strings|
    ensures r.Returned? ==> forall i :: 0 <= i < |strings| ==> r.value[i] == ParseDiceString(strings[i]).value
  {
    if |strings| == 0 then Returned([])
    else
      match ParseDiceString(strings[0])
      case Errored(e) => Panicked(e)
      case Panicked(e) => Panicked(e)
      case Returned(d) =>
        match ParseAll(strings[1..])
        case Returned(ds) => Returned([d] + ds)
        case Errored(e) => Panicked(e)
        case Panicked(e) => Panicked(e)
  }

  /** The panic comes from the first string that does not parse. */
  lemma {:induction false} ParseAllFirstFailure(strings: seq<string>, k: nat)
    requires k < |strings| && !ParseDiceString(strings[k]).Returned?
    requires forall i :: 0 <= i < k ==> ParseDiceString(strings[i]).Returned?
    ensures ParseAll(strings) == Panicked(
      if ParseDiceString(strings[k]).Errored? then ParseDiceString(strings[k]).error
      else ParseDiceString(strings[k]).cause)
  {
    if k > 0 {
      ParseAllFirstFailure(strings[1..], k - 1);
    }
  }

  /** `parse` followed by `DiceSet::new`. */
  method Parse(strings: seq<string>) returns (r: Outcome<DiceSet, DiceError>)
    ensures !r.Errored?
    ensures r.Returned? <==> ParseAll(strings).Returned?
    ensures r.Panicked? ==> r.cause == ParseAll(strings).cause
    ensures r.Returned? ==> fresh(r.value)
    ensures r.Returned? ==> r.value.diceMap.Keys == set i | 0 <= i < |strings| :: ParseAll(strings).value[i]
    ensures r.Returned? ==> r.value.result == 0 && forall d :: d in r.value.diceMap ==> r.value.diceMap[d] == 0
  {
    var parsed := ParseAll(strings);
    if parsed.Returned? {
      var diceSet := new DiceSet(parsed.value);
      r := Returned(diceSet);
    } else {
      r := Panicked(parsed.cause);
    }
  }

  /** The draws can roll every die the strings parse to. */
  ghost predicate CanRollAll(strings: seq<string>, draws: map<Dice, seq<u64>>) {
    ParseAll(strings).Returned? ==>
      var keys := set i | 0 <= i < |strings| :: ParseAll(strings).value[i];
      CanRoll(keys, draws) && MapSum(Rolled(keys, draws)) <= U64_MAX
  }

  /**
   * `roll`: the parsed set (whose `unwrap` cannot fail) rolled once. Every
   * distinct die appears once with its roll, and `result` is the sum.
   */
  method Roll(strings: seq<string>, draws: map<Dice, seq<u64>>) returns (r: Outcome<DiceSet, DiceError>)
    requires CanRollAll(strings, draws)
    ensures !r.Errored?
    ensures r.Panicked? <==> ParseAll(strings).Panicked?
    ensures r.Panicked? ==> r.cause == ParseAll(strings).cause
    ensures r.Returned? ==> fresh(r.value)
    ensures r.Returned? ==> r.value.diceMap.Keys == set i | 0 <= i < |strings| :: ParseAll(strings).value[i]
    ensures r.Returned? ==> forall d :: d in r.value.diceMap ==> r.value.diceMap[d] as nat == Total(d, draws[d])
    ensures r.Returned? ==> r.value.result as nat == MapSum(r.value.diceMap)
  {
    r := Parse(strings);
    if r.Returned? {
      r.value.Roll(draws);
    }
  }

  /** Small numbers read back from their decimal form. */
  lemma ParsesAs(s: string, n: u64)
    requires s == NatToString(n as nat)
    ensures ParseU64(s) == Success(n)
  {
    ParseU64NatToString(n);
  }

  // The unit tests of `parse_dice_count_and_face`.

  lemma CountAndFaceOneDSix()
    ensures ParseDiceCountAndFace("1d6") == Success((1, 6))
  {
    ParseDiceCountAndFaceParts("1d6", "1", "6");
    ParsesAs("1", 1);
    ParsesAs("6", 6);
  }

  /** The string is lowercased before the split, so `'D'` separates too. */
  lemma CountAndFaceUpperD()
    ensures ParseDiceCountAndFace("2D6") == Success((2, 6))
  {
    ParseDiceCountAndFaceParts("2D6", "2", "6");
    ParsesAs("2", 2);
    ParsesAs("6", 6);
  }

  lemma CountAndFaceMissingFace()
    ensures ParseDiceCountAndFace("1d") == Failure(ParseFaceError(Empty))
  {
    ParseDiceCountAndFaceParts("1d", "1", "");
    ParsesAs("1", 1);
  }

  lemma CountAndFaceBadFace()
    ensures ParseDiceCountAndFace("1dU") == Failure(ParseFaceError(InvalidDigit))
  {
    ParseDiceCountAndFaceParts("1dU", "1", "u");
    ParsesAs("1", 1);
    ParseU64FirstInvalid("u", 0);
  }

  lemma CountAndFaceMissingCount()
    ensures ParseDiceCountAndFace("d1") == Failure(ParseDiceCountError(Empty))
  {
    ParseDiceCountAndFaceParts("d1", "", "1");
  }

  lemma CountAndFaceBadCount()
    ensures ParseDiceCountAndFace("Ud1") == Failure(ParseDiceCountError(InvalidDigit))
  {
    ParseDiceCountAndFaceParts("Ud1", "u", "1");
    ParseU64FirstInvalid("u", 0);
  }

  /** Without a `'d'` the original, un-lowercased string is the error. */
  lemma CountAndFaceWithoutD()
    ensures ParseDiceCountAndFace("") == Failure(InvalidDiceString(""))
    ensures ParseDiceCountAndFace("mememe") == Failure(InvalidDiceString("mememe"))
  {
    assert CountOf(ToLower(""), 'd') == 0;
    assert CountOf(ToLower("mememe"), 'd') == 0;
  }

  // The unit tests of `parse_dice_string`.

  lemma DiceStringWithModifier()
    ensures ParseDiceString("1d6+1") == Returned(Dice(1, 6, Some(1)))
  {
    ParseDiceStringWithModifier("1d6+1", "1d6", "1");
    CountAndFaceOneDSix();
    ParsesAs("1", 1);
  }

  lemma DiceStringWithoutModifier()
    ensures ParseDiceString("1d6") == Returned(Dice(1, 6, None))
  {
    ParseDiceStringNoModifier("1d6");
    CountAndFaceOneDSix();
  }

  lemma DiceStringBadModifier()
    ensures ParseDiceString("1d2+U") == Errored(ParseModifierError(InvalidDigit))
  {
    CountAndFaceOneDTwo();
    ParseDiceStringWithModifier("1d2+U", "1d2", "U");
    ParseU64FirstInvalid("U", 0);
  }

  lemma DiceStringEmptyModifier()
    ensures ParseDiceString("1d2+") == Errored(ParseModifierError(Empty))
  {
    CountAndFaceOneDTwo();
    ParseDiceStringWithModifier("1d2+", "1d2", "");
  }

  lemma CountAndFaceOneDTwo()
    ensures ParseDiceCountAndFace("1d2") == Success((1, 2))
  {
    ParseDiceCountAndFaceParts("1d2", "1", "2");
    ParsesAs("1", 1);
    ParsesAs("2", 2);
  }

  lemma DiceStringWithoutD()
    ensures ParseDiceString("") == Errored(InvalidDiceString(""))
    ensures ParseDiceString("mememe") == Errored(InvalidDiceString("mememe"))
  {
    ParseDiceStringNoModifier("");
    ParseDiceStringNoModifier("mememe");
    CountAndFaceWithoutD();
  }

  // The command-line tests: the argument list goes through `parse`.

  /** `parse` of one string: its die, or a panic on its error. */
  lemma ParseAllOne(s: string)
    ensures ParseDiceString(s).Returned? ==> ParseAll([s]) == Returned([ParseDiceString(s).value])
    ensures ParseDiceString(s).Errored? ==> ParseAll([s]) == Panicked(ParseDiceString(s).error)
    ensures ParseDiceString(s).Panicked? ==> ParseAll([s]) == Panicked(ParseDiceString(s).cause)
  {
    assert [s][1..] == [];
    assert ParseAll([]) == Returned([]);
    if ParseDiceString(s).Returned? {
      assert [ParseDiceString(s).value] + [] == [ParseDiceString(s).value];
    }
  }

  lemma CommandLineTwoDice()
    ensures ParseAll(["1d6+3", "2d3"]) == Returned([Dice(1, 6, Some(3)), Dice(2, 3, None)])
  {
    DiceStringOneDSixPlusThree();
    DiceStringTwoDThree();
    ParseAllOne("2d3");
    assert ["1d6+3", "2d3"][1..] == ["2d3"];
    assert ParseAll(["1d6+3", "2d3"]) == Returned([Dice(1, 6, Some(3))] + [Dice(2, 3, None)]);
    assert [Dice(1, 6, Some(3))] + [Dice(2, 3, None)] == [Dice(1, 6, Some(3)), Dice(2, 3, None)];
  }

  lemma DiceStringOneDSixPlusThree()
    ensures ParseDiceString("1d6+3") == Returned(Dice(1, 6, Some(3)))
  {
    CountAndFaceOneDSix();
    ParsesAs("3", 3);
    ParseDiceStringWithModifier("1d6+3", "1d6", "3");
  }

  lemma DiceStringTwoDThree()
    ensures ParseDiceString("2d3") == Returned(Dice(2, 3, None))
  {
    ParseDiceCountAndFaceParts("2d3", "2", "3");
    ParsesAs("2", 2);
    ParsesAs("3", 3);
    ParseDiceStringNoModifier("2d3");
  }

  lemma CommandLineNegativeModifier()
    ensures ParseAll(["1d6-3"]) == Panicked(ParseFaceError(InvalidDigit))
  {
    DiceStringNegativeModifier();
    ParseAllOne("1d6-3");
  }

  /** `"1d6-3"` has no `'+'`, so `6-3` is read as the face. */
  lemma DiceStringNegativeModifier()
    ensures ParseDiceString("1d6-3") == Errored(ParseFaceError(InvalidDigit))
  {
    CountAndFaceDashedFace();
    ParseDiceStringNoModifier("1d6-3");
  }

  lemma CountAndFaceDashedFace()
    ensures ParseDiceCountAndFace("1d6-3") == Failure(ParseFaceError(InvalidDigit))
  {
    ParseDiceCountAndFaceParts("1d6-3", "1", "6-3");
    ParsesAs("1", 1);
    ParseU64FirstInvalid("6-3", 1);
  }

  /** The quoted `'-1d6+3'`: the count `'-1` is unwrapped and panics. */
  lemma CommandLineNegativeCount()
    ensures ParseAll(["'-1d6+3'"]) == Panicked(ParseDiceCountError(InvalidDigit))
  {
    DiceStringNegativeCount();
    ParseAllOne("'-1d6+3'");
  }

  lemma DiceStringNegativeCount()
    ensures ParseDiceString("'-1d6+3'") == Panicked(ParseDiceCountError(InvalidDigit))
  {
    CountAndFaceQuotedCount();
    ParseDiceStringWithModifier("'-1d6+3'", "'-1d6", "3'");
  }

  lemma CountAndFaceQuotedCount()
    ensures ParseDiceCountAndFace("'-1d6") == Failure(ParseDiceCountError(InvalidDigit))
  {
    ParseDiceCountAndFaceParts("'-1d6", "'-1", "6");
    ParseU64FirstInvalid("'-1", 0);
  }

  lemma CommandLineNegativeFace()
    ensures ParseAll(["1d-6+3"]) == Panicked(ParseFaceError(InvalidDigit))
  {
    CountAndFaceNegativeFace();
    ParseDiceStringWithModifier("1d-6+3", "1d-6", "3");
    ParseAllOne("1d-6+3");
  }

  lemma CountAndFaceNegativeFace()
    ensures ParseDiceCountAndFace("1d-6") == Failure(ParseFaceError(InvalidDigit))
  {
    ParseDiceCountAndFaceParts("1d-6", "1", "-6");
    ParsesAs("1", 1);
    ParseU64FirstInvalid("-6", 0);
  }

  lemma CommandLineWrongSeparator()
    ensures ParseAll(["1x6+3"]) == Panicked(InvalidDiceString("1x6"))
  {
    ParseDiceStringWithModifier("1x6+3", "1x6", "3");
    assert CountOf(ToLower("1x6"), 'd') == 0;
    ParseAllOne("1x6+3");
  }

  lemma CommandLineCommaSeparated()
    ensures ParseAll(["1d6+3,2d3"]) == Panicked(ParseModifierError(InvalidDigit))
  {
    DiceStringCommaSeparated();
    ParseAllOne("1d6+3,2d3");
  }

  lemma DiceStringCommaSeparated()
    ensures ParseDiceString("1d6+3,2d3") == Errored(ParseModifierError(InvalidDigit))
  {
    CountAndFaceOneDSix();
    ParseU64FirstInvalid("3,2d3", 1);
    CommaSeparatedParts();
    ParseDiceStringWithModifier("1d6+3,2d3", "1d6", "3,2d3");
  }

  lemma CommaSeparatedParts()
    ensures "1d6+3,2d3" == "1d6" + "+" + "3,2d3" && '+' !in "1d6" && '+' !in "3,2d3"
  {
  }
}
