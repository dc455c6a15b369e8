/** The command-line rendering of dice and of a rolled dice set. */
module CliDiceSet {
  import opened Wrappers
  import opened RustStr
  import opened DiceSets
  import opened DiceUseCase

  /** `CliDisplayDice::fmt`: the same text as `Display for Dice`. */
  function FormatDice(d: Dice): (s: string)
    ensures s == DisplayDice(d)
  {
    var base := NatToString(d.diceCount as nat) + "d" + NatToString(d.face as nat);
    if d.modifier.Some? then base + "+" + NatToString(d.modifier.value as nat) else base
  }

  /** A formatted die parses back to itself. */
  lemma FormatDiceRoundTrip(d: Dice)
    ensures ParseDiceString(FormatDice(d)) == Returned(d)
  {
    var count := NatToString(d.diceCount as nat);
    var face := NatToString(d.face as nat);
    var base := count + "d" + face;
    NatToStringChars(d.diceCount as nat);
    NatToStringChars(d.face as nat);
    ToLowerConcat(count, "d");
    ToLowerConcat(count + "d", face);
    assert ToLower(base) == base;
    ParseDiceCountAndFaceParts(base, count, face);
    ParseU64NatToString(d.diceCount);
    ParseU64NatToString(d.face);
    assert '+' !in base;
    if d.modifier.Some? {
      var m := NatToString(d.modifier.value as nat);
      NatToStringChars(d.modifier.value as nat);
      ParseU64NatToString(d.modifier.value);
      ParseDiceStringWithModifier(base + "+" + m, base, m);
    } else {
      ParseDiceStringNoModifier(base);
    }
  }

  /**
   * `CliDisplayDiceSet::fmt`: the total line, then one line per map entry in
   * iteration order, which is returned as `order`.
   */
  method FormatDiceSet(diceSet: DiceSet) returns (out: string, order: seq<Dice>)
    ensures Enumerates(order, diceSet.diceMap)
    ensures out == DisplayDiceSet(diceSet.result as nat, diceSet.diceMap, order)
    ensures |Split(out, '\n')| == |diceSet.diceMap| + 2
    ensures Split(out, '\n')[0] == HeaderLine(diceSet.result as nat)
  {
    var m := diceSet.diceMap;
    out := "Total: \t\t" + NatToString(diceSet.result as nat) + "\n";
    order := [];
    var remaining := m.Keys;
    assert [HeaderLine(diceSet.result as nat)] + EntryLines(m, order) == [] + [HeaderLine(diceSet.result as nat)];
    UnlinesAppend([], HeaderLine(diceSet.result as nat));
    while remaining != {}
      invariant Listed(order, remaining, m)
      invariant out == DisplayDiceSet(diceSet.result as nat, m, order)
      decreases |remaining|
    {
      var d :| d in remaining;
      AppendEntry(diceSet.result as nat, m, order, d);
      ListOneMore(order, remaining, m, d);
      out := out + "|---" + FormatDice(d) + ": \t" + NatToString(m[d] as nat) + "\n";
      order := order + [d];
      remaining := remaining - {d};
    }
    ListedAll(order, m);
    DisplayDiceSetLines(diceSet.result as nat, m, order);
  }

  /** `order` lists, without repeats, exactly the keys of `m` that are not `remaining`. */
  ghost predicate Listed(order: seq<Dice>, remaining: set<Dice>, m: map<Dice, u64>) {
    && remaining <= m.Keys
    && (forall i :: 0 <= i < |order| ==> order[i] in m && order[i] !in remaining)
    && (forall k :: k in m ==> k in order || k in remaining)
    && (forall i, j :: 0 <= i < j < |order| ==> order[i] != order[j])
    && |order| + |remaining| == |m.Keys|
  }

  lemma ListOneMore(order: seq<Dice>, remaining: set<Dice>, m: map<Dice, u64>, d: Dice)
    requires Listed(order, remaining, m) && d in remaining
    ensures Listed(order + [d], remaining - {d}, m)
  {
    var next := order + [d];
    forall i, j | 0 <= i < j < |next| ensures next[i] != next[j] {
      assert next[i] == order[i];
    }
  }

  lemma ListedAll(order: seq<Dice>, m: map<Dice, u64>)
    requires Listed(order, {}, m)
    ensures Enumerates(order, m)
  {
    assert |m.Keys| == |m|;
  }

  /** One more entry adds one more line. */
  lemma AppendEntry(result: nat, m: map<Dice, u64>, order: seq<Dice>, d: Dice)
    requires forall i :: 0 <= i < |order| ==> order[i] in m
    requires d in m
    ensures DisplayDiceSet(result, m, order + [d])
         == DisplayDiceSet(result, m, order) + "|---" + FormatDice(d) + ": \t" + NatToString(m[d] as nat) + "\n"
  {
    var next := order + [d];
    var line := EntryLine(d, m[d] as nat);
    var longer := EntryLines(m, next);
    var appended := EntryLines(m, order) + [line];
    forall i | 0 <= i < |next| ensures longer[i] == appended[i] {
      if i < |order| {
        assert next[i] == order[i];
      }
    }
    assert longer == appended;
    assert [HeaderLine(result)] + longer == ([HeaderLine(result)] + EntryLines(m, order)) + [line];
    UnlinesAppend([HeaderLine(result)] + EntryLines(m, order), line);
    var before := DisplayDiceSet(result, m, order);
    assert DisplayDiceSet(result, m, next) == before + line + "\n";
    assert FormatDice(d) == DisplayDice(d);
  }
}
