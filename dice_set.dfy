/**
 * Dice and dice sets. A die expression `NdF[+M]` rolls N dice with F faces
 * and adds M. The random generator is replaced by supplied raw `u64` draws,
 * one per die; a draw `x` shows face `x % F + 1`.
 */
module DiceSets {
  import opened Wrappers
  import opened RustStr

  datatype Dice = Dice(diceCount: u64, face: u64, modifier: Option<u64>) {
    /**
     * `Dice::roll`: one draw per die, accumulated in order, then the modifier.
     * A die with 0 faces is a division by zero and a sum past `u64::MAX` an
     * overflow, so both are excluded; no dice at all roll to the modifier
     * whatever the face.
     */
    method Roll(draws: seq<u64>) returns (result: u64)
      requires (diceCount == 0 || face > 0) && |draws| == diceCount as nat
      requires Total(this, draws) <= U64_MAX
      ensures result as nat == Total(this, draws)
      ensures diceCount as nat + ModifierOf(this) <= result as nat <= diceCount as nat * face as nat + ModifierOf(this)
    {
      TotalBounds(this, draws);
      result := 0;
      var i := 0;
      while i < diceCount
        invariant 0 <= i <= diceCount
        invariant result as nat == DrawSum(draws[..i], face as nat)
      {
        ghost var prefix := draws[..i + 1];
        assert prefix[..i] == draws[..i];
        DrawSumPrefix(draws, i as nat + 1, this);
        result := result + (draws[i] % face + 1);
        i := i + 1;
      }
      assert draws[..i] == draws;
      result := result + modifier.GetOr(0);
    }
  }

  function ModifierOf(d: Dice): nat {
    d.modifier.GetOr(0) as nat
  }

  /** The faces shown by the draws, summed. */
  function DrawSum(draws: seq<u64>, face: nat): nat
    requires |draws| == 0 || face > 0
  {
    if |draws| == 0 then 0
    else DrawSum(draws[..|draws| - 1], face) + (draws[|draws| - 1] as nat % face + 1)
  }

  /** What a roll of `d` with these draws comes to, without any overflow. */
  function Total(d: Dice, draws: seq<u64>): nat
    requires |draws| == 0 || d.face > 0
  {
    DrawSum(draws, d.face as nat) + ModifierOf(d)
  }

  /** Every die shows a face in `[1, face]`. */
  lemma {:induction false} DrawSumBounds(draws: seq<u64>, face: nat)
    requires |draws| == 0 || face > 0
    ensures |draws| <= DrawSum(draws, face) <= |draws| * face
  {
    if |draws| > 0 {
      DrawSumBounds(draws[..|draws| - 1], face);
      assert (|draws| - 1) * face + face == |draws| * face;
    }
  }

  /** The range of a roll: from all ones to all maximal faces, plus the modifier. */
  lemma TotalBounds(d: Dice, draws: seq<u64>)
    requires (d.diceCount == 0 || d.face > 0) && |draws| == d.diceCount as nat
    ensures d.diceCount as nat + ModifierOf(d) <= Total(d, draws)
    ensures Total(d, draws) <= d.diceCount as nat * d.face as nat + ModifierOf(d)
  {
    DrawSumBounds(draws, d.face as nat);
  }

  /** A prefix of the draws never sums past the whole. */
  lemma {:induction false} DrawSumPrefix(draws: seq<u64>, n: nat, d: Dice)
    requires (|draws| == 0 || d.face > 0) && n <= |draws|
    requires Total(d, draws) <= U64_MAX
    ensures DrawSum(draws[..n], d.face as nat) <= Total(d, draws)
  {
    if n < |draws| {
      var k := |draws|;
      assert draws[..k] == draws;
      DrawSumMonotone(draws, n, k, d.face as nat);
    } else {
      assert draws[..n] == draws;
    }
  }

  lemma {:induction false} DrawSumMonotone(draws: seq<u64>, n: nat, k: nat, face: nat)
    requires (|draws| == 0 || face > 0) && n <= k <= |draws|
    ensures DrawSum(draws[..n], face) <= DrawSum(draws[..k], face)
    decreases k - n
  {
    if n < k {
      DrawSumMonotone(draws, n, k - 1, face);
      assert draws[..k][..k - 1] == draws[..k - 1];
    }
  }

  /** Zero dice never touch the face: `0d0+3` rolls to 3. */
  method RollNoDice() returns (result: u64)
    ensures result == 3
  {
    var d := Dice(0, 0, Some(3));
    result := d.Roll([]);
  }

  /** The test of `Dice::roll` on `1d20+2`: strictly above 2, at most 22. */
  method RollD20PlusTwo(draw: u64) returns (result: u64)
    ensures 2 < result <= 22
  {
    var d := Dice(1, 20, Some(2));
    assert DrawSum([draw], 20) == DrawSum([], 20) + (draw as nat % 20 + 1);
    result := d.Roll([draw]);
  }

  /** An arbitrary entry of a non-empty map, the one `MapSum` peels off first. */
  ghost function Pick(m: map<Dice, u64>): Dice
    requires m != map[]
  {
    var d :| d in m; d
  }

  /** The sum of a map's values, whatever the iteration order. */
  ghost function MapSum(m: map<Dice, u64>): nat
    decreases |m|
  {
    if m == map[] then 0
    else
      var d := Pick(m);
      m[d] as nat + MapSum(m - {d})
  }

  /** Any entry can be peeled off first: the sum does not depend on the order. */
  lemma {:induction false} MapSumRemove(m: map<Dice, u64>, d: Dice)
    requires d in m
    ensures MapSum(m) == m[d] as nat + MapSum(m - {d})
    decreases |m|
  {
    var p := Pick(m);
    if p != d {
      MapSumRemove(m - {p}, d);
      MapSumRemove(m - {d}, p);
      assert m - {p} - {d} == m - {d} - {p};
    }
  }

  /** Each value is at most the sum. */
  lemma MapSumBound(m: map<Dice, u64>, d: Dice)
    requires d in m
    ensures m[d] as nat <= MapSum(m)
  {
    MapSumRemove(m, d);
  }

  /** What each die shows after a roll with the supplied draws, if every roll is defined. */
  ghost predicate CanRoll(keys: set<Dice>, draws: map<Dice, seq<u64>>) {
    forall d :: d in keys ==> d in draws && (d.diceCount == 0 || d.face > 0) && |draws[d]| == d.diceCount as nat && Total(d, draws[d]) <= U64_MAX
  }

  ghost function Rolled(keys: set<Dice>, draws: map<Dice, seq<u64>>): map<Dice, u64>
    requires CanRoll(keys, draws)
  {
    map d | d in keys :: Total(d, draws[d]) as u64
  }

  /** `iter().sum()` over the map's values. */
  method SumValues(m: map<Dice, u64>) returns (s: u64)
    requires MapSum(m) <= U64_MAX
    ensures s as nat == MapSum(m)
  {
    s := 0;
    var rest := m;
    while rest != map[]
      invariant s as nat + MapSum(rest) == MapSum(m)
      decreases |rest|
    {
      var d :| d in rest;
      MapSumRemove(rest, d);
      s := s + rest[d];
      rest := rest - {d};
    }
  }

  /** The loop of `DiceSet::roll`: each die rolled once, in any order, into a new map. */
  method RollEach(keys: set<Dice>, draws: map<Dice, seq<u64>>) returns (rolled: map<Dice, u64>)
    requires CanRoll(keys, draws)
    ensures rolled == Rolled(keys, draws)
  {
    rolled := map[];
    var remaining := keys;
    while remaining != {}
      invariant remaining <= keys
      invariant rolled.Keys == keys - remaining
      invariant forall d :: d in rolled ==> rolled[d] as nat == Total(d, draws[d])
      decreases |remaining|
    {
      var d :| d in remaining;
      var roll := d.Roll(draws[d]);
      rolled := rolled[d := roll];
      remaining := remaining - {d};
    }
  }

  class DiceSet {
    var diceMap: map<Dice, u64>
    var result: u64

    /** `DiceSet::new`: every distinct die of `dice` maps to 0; duplicates collapse. */
    constructor (dice: seq<Dice>)
      ensures diceMap.Keys == set i | 0 <= i < |dice| :: dice[i]
      ensures forall d :: d in diceMap ==> diceMap[d] == 0
      ensures result == 0
    {
      diceMap := map i | 0 <= i < |dice| :: dice[i] := 0;
      result := 0;
    }

    /**
     * `DiceSet::roll`: every die of the map is rolled once with its draws into
     * a new map over the same dice, which replaces the old one, and `result`
     * becomes the sum of the new values.
     */
    method Roll(draws: map<Dice, seq<u64>>)
      requires CanRoll(diceMap.Keys, draws)
      requires MapSum(Rolled(diceMap.Keys, draws)) <= U64_MAX
      modifies this
      ensures diceMap.Keys == old(diceMap.Keys)
      ensures forall d :: d in diceMap ==> diceMap[d] as nat == Total(d, draws[d])
      ensures result as nat == MapSum(diceMap)
    {
      diceMap := RollEach(diceMap.Keys, draws);
      result := SumValues(diceMap);
    }
  }

  /** The test of `DiceSet::roll` on the single die `1d20+2`. */
  method RollSetD20PlusTwo(draw: u64) returns (result: u64)
    ensures 2 < result <= 22
  {
    var d := Dice(1, 20, Some(2));
    var set1 := new DiceSet([d]);
    assert [d][0] == d;
    assert set1.diceMap.Keys == {d};
    assert DrawSum([draw], 20) == DrawSum([], 20) + (draw as nat % 20 + 1);
    var rolled := map[d := [draw]];
    MapSumSingleton(Rolled(set1.diceMap.Keys, rolled), d);
    set1.Roll(rolled);
    MapSumSingleton(set1.diceMap, d);
    result := set1.result;
  }

  lemma MapSumSingleton(m: map<Dice, u64>, d: Dice)
    requires m.Keys == {d}
    ensures MapSum(m) == m[d] as nat
  {
    MapSumRemove(m, d);
    assert m - {d} == map[];
  }

  /** `Display for Dice`: `"{count}d{face}"`, then `"+{mod}"` exactly when there is a modifier. */
  function DisplayDice(d: Dice): string {
    NatToString(d.diceCount as nat) + "d" + NatToString(d.face as nat) + DisplayModifier(d.modifier)
  }

  function DisplayModifier(m: Option<u64>): (s: string)
    ensures m.None? <==> s == ""
    ensures m.Some? ==> s == "+" + NatToString(m.value as nat)
  {
    if m.Some? then "+" + NatToString(m.value as nat) else ""
  }

  /** `order` lists every key of the map once; the map's iteration order is not modelled. */
  predicate Enumerates<K, V>(order: seq<K>, m: map<K, V>) {
    && |order| == |m|
    && (forall i :: 0 <= i < |order| ==> order[i] in m)
    && (forall k :: k in m ==> k in order)
    && (forall i, j :: 0 <= i < j < |order| ==> order[i] != order[j])
  }

  function HeaderLine(result: nat): string {
    "Total: \t\t" + NatToString(result)
  }

  function EntryLine(d: Dice, roll: nat): string {
    "|---" + DisplayDice(d) + ": \t" + NatToString(roll)
  }

  function EntryLines(m: map<Dice, u64>, order: seq<Dice>): seq<string>
    requires forall i :: 0 <= i < |order| ==> order[i] in m
  {
    seq(|order|, i requires 0 <= i < |order| => EntryLine(order[i], m[order[i]] as nat))
  }

  /**
   * `Display for DiceSet`: the total line, then one line per entry in the
   * map's iteration order `order`, each line ended by a newline.
   */
  function DisplayDiceSet(result: nat, m: map<Dice, u64>, order: seq<Dice>): string
    requires forall i :: 0 <= i < |order| ==> order[i] in m
  {
    Unlines([HeaderLine(result)] + EntryLines(m, order))
  }

  /** A displayed die never contains a newline. */
  lemma DisplayDiceNoNewline(d: Dice)
    ensures '\n' !in DisplayDice(d)
  {
    NatToStringChars(d.diceCount as nat);
    NatToStringChars(d.face as nat);
    if d.modifier.Some? {
      NatToStringChars(d.modifier.value as nat);
    }
  }

  /**
   * The displayed set has one line per map entry after the total line:
   * `1 + |m|` lines, each followed by a newline.
   */
  lemma DisplayDiceSetLines(result: nat, m: map<Dice, u64>, order: seq<Dice>)
    requires forall i :: 0 <= i < |order| ==> order[i] in m
    requires |order| == |m|
    ensures var lines := Split(DisplayDiceSet(result, m, order), '\n');
      && |lines| == |m| + 2
      && lines[0] == HeaderLine(result)
      && (forall i :: 0 <= i < |order| ==> lines[i + 1] == EntryLine(order[i], m[order[i]] as nat))
      && lines[|m| + 1] == ""
  {
    var entries := EntryLines(m, order);
    var all := [HeaderLine(result)] + entries;
    AllLinesNoNewline(result, m, order);
    SplitUnlines(all);
    var lines := Split(DisplayDiceSet(result, m, order), '\n');
    assert lines == all + [""];
    assert |lines| == |m| + 2;
    assert lines[0] == HeaderLine(result);
    assert forall i :: 0 <= i < |order| ==> lines[i + 1] == entries[i];
  }

  lemma AllLinesNoNewline(result: nat, m: map<Dice, u64>, order: seq<Dice>)
    requires forall i :: 0 <= i < |order| ==> order[i] in m
    ensures var all := [HeaderLine(result)] + EntryLines(m, order);
      forall i :: 0 <= i < |all| ==> '\n' !in all[i]
  {
    var all := [HeaderLine(result)] + EntryLines(m, order);
    NatToStringChars(result);
    forall i | 0 <= i < |all| ensures '\n' !in all[i] {
      if i > 0 {
        DisplayDiceNoNewline(order[i - 1]);
        NatToStringChars(m[order[i - 1]] as nat);
        assert all[i] == EntryLine(order[i - 1], m[order[i - 1]] as nat);
      }
    }
  }
}
