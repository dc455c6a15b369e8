/**
 * The older copy of the dice parser, with its own error type `DiceRollError`.
 * It is written out as its source has it and shown to agree with
 * `DiceUseCase` on every input once the error constructors are renamed.
 */
module DiceRollUseCase {
  import opened Wrappers
  import opened RustStr
  import opened DiceSets
  import DiceUseCase

  datatype DiceRollError =
    | ParseDiceCountError(count: IntErrorKind)
    | ParseFaceError(face: IntErrorKind)
    | ParseModifierError(modifier: IntErrorKind)
    | InvalidDiceString(text: string)

  /** The constructor of the same name. */
  function FromDiceError(e: DiceUseCase.DiceError): DiceRollError {
    match e
    case ParseDiceCountError(k) => ParseDiceCountError(k)
    case ParseFaceError(k) => ParseFaceError(k)
    case ParseModifierError(k) => ParseModifierError(k)
    case InvalidDiceString(t) => InvalidDiceString(t)
  }

  function Renamed<T>(r: Outcome<T, DiceUseCase.DiceError>): Outcome<T, DiceRollError> {
    match r
    case Returned(v) => Returned(v)
    case Errored(e) => Errored(FromDiceError(e))
    case Panicked(e) => Panicked(FromDiceError(e))
  }

  /** `DiceRoll::parse_dice_count_and_face`. */
  function ParseDiceCountAndFace(s: string): (r: Result<(u64, u64), DiceRollError>)
    ensures var lib := DiceUseCase.ParseDiceCountAndFace(s);
      && (r.Success? <==> lib.Success?)
      && (r.Success? ==> r.value == lib.value)
      && (r.Failure? ==> r.error == FromDiceError(lib.error))
  {
    var pieces := Split(ToLower(s), 'd');
    if |pieces| != 2 then
      Failure(InvalidDiceString(s))
    else
      match ParseU64(pieces[0])
      case Failure(e) => Failure(ParseDiceCountError(e))
      case Success(count) =>
        match ParseU64(pieces[1])
        case Failure(e) => Failure(ParseFaceError(e))
        case Success(face) => Success((count, face))
  }

  /** `DiceRoll::parse_dice_string`. */
  function ParseDiceString(s: string): (r: Outcome<Dice, DiceRollError>)
    ensures r == Renamed(DiceUseCase.ParseDiceString(s))
  {
    var parts := Split(s, '+');
    if |parts| == 2 then
      match ParseDiceCountAndFace(parts[0])
      case Failure(e) => Panicked(e)
      case Success((count, face)) =>
        match ParseU64(parts[1])
        case Failure(e) => Errored(ParseModifierError(e))
        case Success(m) => Returned(Dice(count, face, Some(m)))
    else if |parts| == 1 then
      match ParseDiceCountAndFace(parts[0])
      case Failure(e) => Errored(e)
      case Success((count, face)) => Returned(Dice(count, face, None))
    else
      Errored(InvalidDiceString(s))
  }

  /** `DiceRoll::parse`: every string unwrapped in order. */
  function ParseAll(strings: seq<string>): (r: Outcome<seq<Dice>, DiceRollError>)
    ensures r == Renamed(DiceUseCase.ParseAll(strings))
  {
    if |strings| == 0 then Returned([])
    else
      match ParseDiceString(strings[0])
      case Errored(e) => Panicked(e)
      case Panicked(e) => Panicked(e)
      case Returned(d) =>
        match ParseAll(strings[1..])
        case Returned(ds) => Returned([d] + ds)
        case Errored(e) => Panicked(e)
        case Panicked(e) => Panicked(e)
  }

  /** `DiceRoll::roll`: the parsed set rolled once. */
  method Roll(strings: seq<string>, draws: map<Dice, seq<u64>>) returns (r: Outcome<DiceSet, DiceRollError>)
    requires DiceUseCase.CanRollAll(strings, draws)
    ensures !r.Errored?
    ensures r.Panicked? <==> DiceUseCase.ParseAll(strings).Panicked?
    ensures r.Panicked? ==> r.cause == FromDiceError(DiceUseCase.ParseAll(strings).cause)
    ensures r.Returned? ==> fresh(r.value)
    ensures r.Returned? ==> r.value.diceMap.Keys == set i | 0 <= i < |strings| :: DiceUseCase.ParseAll(strings).value[i]
    ensures r.Returned? ==> forall d :: d in r.value.diceMap ==> r.value.diceMap[d] as nat == Total(d, draws[d])
    ensures r.Returned? ==> r.value.result as nat == MapSum(r.value.diceMap)
  {
    var parsed := ParseAll(strings);
    if parsed.Returned? {
      var diceSet := new DiceSet(parsed.value);
      diceSet.Roll(draws);
      r := Returned(diceSet);
    } else {
      r := Panicked(parsed.cause);
    }
  }
}
