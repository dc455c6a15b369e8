/**
 * The few Rust string operations the core relies on, over ASCII:
 * `split(char)`, `to_lowercase`, `trim`, `str::parse::<u64>` and the
 * decimal `Display` of an unsigned integer.
 */
module RustStr {
  import opened Wrappers

  const U64_MAX: int := 0xFFFF_FFFF_FFFF_FFFF

  newtype u64 = x: int | 0 <= x <= 0xFFFF_FFFF_FFFF_FFFF

  // ---------------------------------------------------------------- split

  /** `s.split(sep).collect()`: the pieces between separators, empty ones included. */
  function Split(s: string, sep: char): (r: seq<string>)
    ensures |r| >= 1
    ensures forall i :: 0 <= i < |r| ==> sep !in r[i]
    decreases |s|
  {
    if |s| == 0 then [""]
    else
      var rest := Split(s[1..], sep);
      if s[0] == sep then [""] + rest
      else [[s[0]] + rest[0]] + rest[1..]
  }

  /** The pieces glued back together with `sep` between them. */
  function Join(pieces: seq<string>, sep: char): string
    requires |pieces| >= 1
  {
    if |pieces| == 1 then pieces[0] else pieces[0] + [sep] + Join(pieces[1..], sep)
  }

  function CountOf(s: string, c: char): nat {
    if |s| == 0 then 0 else (if s[0] == c then 1 else 0) + CountOf(s[1..], c)
  }

  /** Splitting loses nothing: joining the pieces gives the string back. */
  lemma {:induction false} JoinSplit(s: string, sep: char)
    ensures Join(Split(s, sep), sep) == s
  {
    if |s| > 0 {
      var rest := Split(s[1..], sep);
      JoinSplit(s[1..], sep);
      if s[0] == sep {
        assert Split(s, sep) == [""] + rest;
        assert ([""] + rest)[1..] == rest;
      } else {
        var r := Split(s, sep);
        assert r[0] == [s[0]] + rest[0] && r[1..] == rest[1..];
        if |rest| > 1 {
          assert Join(rest, sep) == rest[0] + [sep] + Join(rest[1..], sep);
        }
      }
    }
  }

  /** There is one piece more than there are separators. */
  lemma {:induction false} SplitCount(s: string, sep: char)
    ensures |Split(s, sep)| == CountOf(s, sep) + 1
  {
    if |s| > 0 {
      SplitCount(s[1..], sep);
    }
  }

  lemma {:induction false} SplitNoSep(s: string, sep: char)
    requires sep !in s
    ensures Split(s, sep) == [s]
  {
    if |s| > 0 {
      SplitNoSep(s[1..], sep);
      assert [s[0]] + s[1..] == s;
    }
  }

  lemma {:induction false} SplitAt(a: string, b: string, sep: char)
    requires sep !in a
    ensures Split(a + [sep] + b, sep) == [a] + Split(b, sep)
  {
    if |a| == 0 {
      assert a + [sep] + b == [sep] + b;
      assert ([sep] + b)[1..] == b;
    } else {
      var s := a + [sep] + b;
      assert s[1..] == a[1..] + [sep] + b;
      SplitAt(a[1..], b, sep);
      assert [a[0]] + a[1..] == a;
    }
  }

  /** Splitting undoes joining separator-free pieces. */
  lemma {:induction false} SplitJoin(pieces: seq<string>, sep: char)
    requires |pieces| >= 1 && forall i :: 0 <= i < |pieces| ==> sep !in pieces[i]
    ensures Split(Join(pieces, sep), sep) == pieces
  {
    if |pieces| == 1 {
      SplitNoSep(pieces[0], sep);
    } else {
      SplitJoin(pieces[1..], sep);
      SplitAt(pieces[0], Join(pieces[1..], sep), sep);
      assert [pieces[0]] + pieces[1..] == pieces;
    }
  }

  // ---------------------------------------------------------------- lines

  /** What a run of `writeln!` calls leaves in the buffer: each line followed by `'\n'`. */
  function Unlines(lines: seq<string>): string {
    if |lines| == 0 then "" else lines[0] + "\n" + Unlines(lines[1..])
  }

  lemma {:induction false} UnlinesAppend(lines: seq<string>, line: string)
    ensures Unlines(lines + [line]) == Unlines(lines) + line + "\n"
  {
    if |lines| > 0 {
      assert (lines + [line])[1..] == lines[1..] + [line];
      UnlinesAppend(lines[1..], line);
    } else {
      assert lines + [line] == [line];
    }
  }

  /** Output written line by line splits back into those lines and a final empty piece. */
  lemma {:induction false} SplitUnlines(lines: seq<string>)
    requires forall i :: 0 <= i < |lines| ==> '\n' !in lines[i]
    ensures Split(Unlines(lines), '\n') == lines + [""]
  {
    if |lines| > 0 {
      SplitUnlines(lines[1..]);
      SplitAt(lines[0], Unlines(lines[1..]), '\n');
      assert [lines[0]] + (lines[1..] + [""]) == lines + [""];
    }
  }

  // ---------------------------------------------------------------- case

  function LowerChar(c: char): char {
    if 'A' <= c <= 'Z' then (c as int + 32) as char else c
  }

  /** `to_lowercase`, ASCII letters only. */
  function ToLower(s: string): (r: string)
    ensures |r| == |s| && forall i :: 0 <= i < |s| ==> r[i] == LowerChar(s[i])
  {
    if |s| == 0 then "" else [LowerChar(s[0])] + ToLower(s[1..])
  }

  lemma ToLowerConcat(a: string, b: string)
    ensures ToLower(a + b) == ToLower(a) + ToLower(b)
  {
  }

  /** Strings without upper-case letters (digits, separators) are left alone. */
  lemma ToLowerUnchanged(s: string)
    requires forall i :: 0 <= i < |s| ==> !('A' <= s[i] <= 'Z')
    ensures ToLower(s) == s
  {
  }

  // ---------------------------------------------------------------- trim

  /** `char::is_whitespace` on ASCII: tab, line feed, vertical tab, form feed, carriage return, space. */
  predicate IsWhitespace(c: char) {
    c == ' ' || '\t' <= c <= '\r'
  }

  /** `r` is `s[i..j]`, and only whitespace lies outside it. */
  predicate TrimmedAt(s: string, r: string, i: int, j: int) {
    && 0 <= i <= j <= |s| && r == s[i..j]
    && (forall k :: 0 <= k < i ==> IsWhitespace(s[k]))
    && (forall k :: j <= k < |s| ==> IsWhitespace(s[k]))
  }

  function TrimStart(s: string): (r: string)
    ensures TrimmedAt(s, r, |s| - |r|, |s|)
    ensures |r| > 0 ==> !IsWhitespace(r[0])
  {
    if |s| > 0 && IsWhitespace(s[0]) then TrimStart(s[1..]) else s
  }

  function TrimEnd(s: string): (r: string)
    ensures TrimmedAt(s, r, 0, |r|)
    ensures |r| > 0 ==> !IsWhitespace(r[|r| - 1])
  {
    if |s| > 0 && IsWhitespace(s[|s| - 1]) then TrimEnd(s[..|s| - 1]) else s
  }

  /** `trim`: the infix of `s` left after removing leading and trailing whitespace. */
  function Trim(s: string): (r: string)
    ensures TrimmedAt(s, r, |s| - |TrimStart(s)|, |s| - |TrimStart(s)| + |r|)
    ensures |r| > 0 ==> !IsWhitespace(r[0]) && !IsWhitespace(r[|r| - 1])
  {
    TrimFacts(s);
    TrimEnd(TrimStart(s))
  }

  lemma TrimFacts(s: string)
    ensures TrimmedAt(s, TrimEnd(TrimStart(s)), |s| - |TrimStart(s)|, |s| - |TrimStart(s)| + |TrimEnd(TrimStart(s))|)
    ensures |TrimEnd(TrimStart(s))| > 0 ==>
      !IsWhitespace(TrimEnd(TrimStart(s))[0]) && !IsWhitespace(TrimEnd(TrimStart(s))[|TrimEnd(TrimStart(s))| - 1])
  {
    TrimCompose(s, TrimStart(s), TrimEnd(TrimStart(s)));
  }

  /** Whitespace cut from the front of `s` leaves `t`; cut from the back of `t`, `r`. */
  lemma TrimCompose(s: string, t: string, r: string)
    requires TrimmedAt(s, t, |s| - |t|, |s|) && TrimmedAt(t, r, 0, |r|)
    requires |t| > 0 ==> !IsWhitespace(t[0])
    requires |r| > 0 ==> !IsWhitespace(r[|r| - 1])
    ensures TrimmedAt(s, r, |s| - |t|, |s| - |t| + |r|)
    ensures |r| > 0 ==> !IsWhitespace(r[0]) && !IsWhitespace(r[|r| - 1])
  {
    var i := |s| - |t|;
    var j := i + |r|;
    forall k | 0 <= k < |r| ensures r[k] == s[i..j][k] {
      assert r[k] == t[k] == s[i + k];
    }
    assert r == s[i..j];
    forall k | j <= k < |s| ensures IsWhitespace(s[k]) {
      assert s[k] == t[k - i];
    }
    assert |r| > 0 ==> r[0] == t[0];
  }

  lemma TrimNoWhitespaceEnds(s: string)
    requires |s| > 0 ==> !IsWhitespace(s[0]) && !IsWhitespace(s[|s| - 1])
    ensures Trim(s) == s
  {
  }

  lemma TrimIdempotent(s: string)
    ensures Trim(Trim(s)) == Trim(s)
  {
    TrimNoWhitespaceEnds(Trim(s));
  }

  /** Lower-casing keeps whitespace where it is, so it commutes with trimming. */
  lemma {:induction false} TrimStartToLower(s: string)
    ensures TrimStart(ToLower(s)) == ToLower(TrimStart(s))
  {
    if |s| > 0 {
      var l := ToLower(s);
      assert l == [LowerChar(s[0])] + ToLower(s[1..]);
      assert l[1..] == ToLower(s[1..]);
      if IsWhitespace(s[0]) {
        assert IsWhitespace(l[0]);
        TrimStartToLower(s[1..]);
      } else {
        assert !IsWhitespace(l[0]);
        assert TrimStart(l) == l && TrimStart(s) == s;
      }
    }
  }

  lemma {:induction false} TrimEndToLower(s: string)
    ensures TrimEnd(ToLower(s)) == ToLower(TrimEnd(s))
  {
    if |s| > 0 {
      var n := |s| - 1;
      var l := ToLower(s);
      assert l[..n] == ToLower(s[..n]);
      if IsWhitespace(s[n]) {
        assert IsWhitespace(l[n]);
        assert TrimEnd(l) == TrimEnd(l[..n]) && TrimEnd(s) == TrimEnd(s[..n]);
        TrimEndToLower(s[..n]);
      } else {
        assert !IsWhitespace(l[n]);
        assert TrimEnd(l) == l && TrimEnd(s) == s;
      }
    }
  }

  lemma ToLowerIdempotent(s: string)
    ensures ToLower(ToLower(s)) == ToLower(s)
  {
  }

  /** The name normalisation: `to_lowercase()` then `trim()`. */
  function Normalize(s: string): string {
    Trim(ToLower(s))
  }

  /** Normalising twice is normalising once. */
  lemma NormalizeIdempotent(s: string)
    ensures Normalize(Normalize(s)) == Normalize(s)
  {
    var l := ToLower(s);
    TrimStartToLower(l);
    TrimEndToLower(TrimStart(l));
    ToLowerIdempotent(s);
    ToLowerIdempotent(TrimStart(l));
    ToLowerIdempotent(TrimEnd(TrimStart(l)));
    TrimIdempotent(l);
  }

  // ---------------------------------------------------------------- integers

  /** `IntErrorKind` of `ParseIntError`. */
  datatype IntErrorKind = Empty | InvalidDigit | PosOverflow

  predicate IsDigit(c: char) {
    '0' <= c <= '9'
  }

  function DigitValue(c: char): nat
    requires IsDigit(c)
  {
    c as int - '0' as int
  }

  function DigitChar(d: nat): (c: char)
    requires d < 10
    ensures IsDigit(c) && DigitValue(c) == d
  {
    ('0' as int + d) as char
  }

  predicate AllDigits(s: string) {
    forall i :: 0 <= i < |s| ==> IsDigit(s[i])
  }

  /** The number a digit string denotes: each digit weighted by its power of ten. */
  function DecimalValue(digits: string): nat
    requires AllDigits(digits)
  {
    if |digits| == 0 then 0
    else DigitValue(digits[0]) * Pow10(|digits| - 1) + DecimalValue(digits[1..])
  }

  /** Appending a digit multiplies the value by ten and adds the digit. */
  lemma {:induction false} DecimalValueSnoc(digits: string)
    requires |digits| > 0 && AllDigits(digits)
    ensures var n := |digits| - 1;
      DecimalValue(digits) == 10 * DecimalValue(digits[..n]) + DigitValue(digits[n])
    decreases |digits|
  {
    var n := |digits| - 1;
    if n > 0 {
      var tail := digits[1..];
      DecimalValueSnoc(tail);
      assert tail[..n - 1] == digits[..n][1..];
      assert tail[n - 1] == digits[n];
      var d0, p := DigitValue(digits[0]), Pow10(n - 1);
      var a, last := DecimalValue(tail[..n - 1]), DigitValue(digits[n]);
      assert DecimalValue(tail) == 10 * a + last;
      assert DecimalValue(digits[..n]) == d0 * p + a;
      assert Pow10(n) == 10 * p;
      assert DecimalValue(digits) == d0 * Pow10(n) + DecimalValue(tail);
      ShiftDigit(d0, p, a, last);
    } else {
      assert digits[..n] == "";
    }
  }

  lemma ShiftDigit(d0: nat, p: nat, a: nat, last: nat)
    ensures d0 * (10 * p) + (10 * a + last) == 10 * (d0 * p + a) + last
  {
  }

  /**
   * The digit loop of `u64::from_str_radix(_, 10)`, read left to right: the
   * first character that is not a digit, or the first digit at which the
   * value leaves the `u64` range, decides the error.
   */
  function ParseDigits(digits: string): (r: Result<nat, IntErrorKind>)
    ensures r.Success? ==> r.value <= U64_MAX
    ensures r.Success? ==> AllDigits(digits)
    decreases |digits|
  {
    if |digits| == 0 then Success(0)
    else
      var n := |digits| - 1;
      match ParseDigits(digits[..n])
      case Failure(e) => Failure(e)
      case Success(acc) =>
        if !IsDigit(digits[n]) then Failure(InvalidDigit)
        else if acc * 10 + DigitValue(digits[n]) > U64_MAX then Failure(PosOverflow)
        else Success(acc * 10 + DigitValue(digits[n]))
  }

  /**
   * `s.parse::<u64>()`: an empty string is `Empty`; one optional leading `'+'`
   * is allowed but not on its own; every other character must be a digit.
   */
  function ParseU64(s: string): (r: Result<u64, IntErrorKind>)
    ensures r == Failure(Empty) <==> |s| == 0
    ensures r.Success? ==> |s| > 0 && (s[0] == '+' || IsDigit(s[0]))
    ensures r.Success? ==> forall i :: 0 < i < |s| ==> IsDigit(s[i])
    ensures var digits := Unsigned(s);
      r.Success? <==> |digits| > 0 && AllDigits(digits) && DecimalValue(digits) <= U64_MAX
    ensures var digits := Unsigned(s);
      r.Success? ==> r.value as nat == DecimalValue(digits)
    ensures var digits := Unsigned(s);
      |digits| > 0 && AllDigits(digits) && DecimalValue(digits) > U64_MAX ==> r == Failure(PosOverflow)
  {
    if |s| == 0 then Failure(Empty)
    else if s == "+" then Failure(InvalidDigit)
    else
      var digits := if s[0] == '+' then s[1..] else s;
      ParseDigitsValue(digits);
      match ParseDigits(digits)
      case Failure(e) =>
        assert e != Empty by { ParseDigitsNotEmptyError(digits); }
        Failure(e)
      case Success(v) =>
        assert digits[0] == s[0] || digits == s[1..];
        Success(v as u64)
  }

  /** The digits `s.parse::<u64>()` reads: `s` without one leading `'+'`. */
  function Unsigned(s: string): string {
    if |s| > 0 && s[0] == '+' then s[1..] else s
  }

  /**
   * On a digit string the loop computes its value, and fails with
   * `PosOverflow` exactly when that value is past `u64::MAX`.
   */
  lemma {:induction false} ParseDigitsValue(digits: string)
    ensures AllDigits(digits) ==>
      ParseDigits(digits) == if DecimalValue(digits) <= U64_MAX then Success(DecimalValue(digits)) else Failure(PosOverflow)
    decreases |digits|
  {
    if |digits| > 0 && AllDigits(digits) {
      var n := |digits| - 1;
      ParseDigitsValue(digits[..n]);
      DecimalValueSnoc(digits);
      assert IsDigit(digits[n]);
    }
  }

  lemma {:induction false} ParseDigitsNotEmptyError(digits: string)
    ensures ParseDigits(digits) != Failure(Empty)
    decreases |digits|
  {
    if |digits| > 0 {
      ParseDigitsNotEmptyError(digits[..|digits| - 1]);
    }
  }

  /** `10^n`. */
  function Pow10(n: nat): (p: nat)
    ensures p >= 1
  {
    if n == 0 then 1 else 10 * Pow10(n - 1)
  }

  lemma {:induction false} Pow10Monotone(m: nat, n: nat)
    requires m <= n
    ensures Pow10(m) <= Pow10(n)
    decreases n - m
  {
    if m < n {
      Pow10Monotone(m, n - 1);
    }
  }

  /** `10^19` is the largest power of ten a `u64` holds. */
  lemma Pow10Nineteen()
    ensures Pow10(19) == 10_000_000_000_000_000_000 && Pow10(19) <= U64_MAX < 10 * Pow10(19)
  {
    assert Pow10(1) == 10;
    assert Pow10(2) == 100;
    assert Pow10(3) == 1000;
    assert Pow10(4) == 10000;
    assert Pow10(5) == 100000;
    assert Pow10(6) == 1000000;
    assert Pow10(7) == 10000000;
    assert Pow10(8) == 100000000;
    assert Pow10(9) == 1000000000;
    assert Pow10(10) == 10000000000;
    assert Pow10(11) == 100000000000;
    assert Pow10(12) == 1000000000000;
    assert Pow10(13) == 10000000000000;
    assert Pow10(14) == 100000000000000;
    assert Pow10(15) == 1000000000000000;
    assert Pow10(16) == 10000000000000000;
    assert Pow10(17) == 100000000000000000;
    assert Pow10(18) == 1000000000000000000;
    assert Pow10(19) == 10000000000000000000;
  }

  /** Up to 19 digits never overflow a `u64`: an `n`-digit number is below `10^n`. */
  lemma {:induction false} ParseDigitsShort(digits: string)
    requires |digits| <= 19 && forall i :: 0 <= i < |digits| ==> IsDigit(digits[i])
    ensures ParseDigits(digits).Success? && ParseDigits(digits).value < Pow10(|digits|)
    decreases |digits|
  {
    if |digits| > 0 {
      var n := |digits| - 1;
      ParseDigitsShort(digits[..n]);
      var acc := ParseDigits(digits[..n]).value;
      assert acc * 10 + DigitValue(digits[n]) < Pow10(|digits|) by {
        assert acc + 1 <= Pow10(n);
        assert (acc + 1) * 10 <= Pow10(n) * 10;
      }
      Pow10Monotone(|digits|, 19);
      Pow10Nineteen();
    }
  }

  /** Once a prefix of the digits has failed, the rest cannot change the error. */
  lemma {:induction false} ParseDigitsFailureSticks(digits: string, k: nat)
    requires k <= |digits| && ParseDigits(digits[..k]).Failure?
    ensures ParseDigits(digits) == ParseDigits(digits[..k])
    decreases |digits|
  {
    if k == |digits| {
      assert digits[..k] == digits;
    } else {
      var n := |digits| - 1;
      assert digits[..n][..k] == digits[..k];
      ParseDigitsFailureSticks(digits[..n], k);
    }
  }

  /**
   * A non-digit after at most 19 digits makes the parse fail with
   * `InvalidDigit` when the string has no sign.
   */
  lemma ParseU64FirstInvalid(s: string, i: nat)
    requires i < |s| && i <= 19 && s[0] != '+'
    requires !IsDigit(s[i]) && forall j :: 0 <= j < i ==> IsDigit(s[j])
    ensures ParseU64(s) == Failure(InvalidDigit)
  {
    ParseDigitsShort(s[..i]);
    assert s[..i + 1][..i] == s[..i];
    ParseDigitsFailureSticks(s, i + 1);
  }

  /** A leading `'+'` and leading zeros are accepted. */
  lemma ParseU64Examples()
    ensures ParseU64("+6") == Success(6)
    ensures ParseU64("007") == Success(7)
  {
    assert Unsigned("+6") == "6" && "6"[1..] == "";
    assert AllDigits("6");
    assert DecimalValue("007") == 7 by {
      assert "007"[1..] == "07" && "07"[1..] == "7" && "7"[1..] == "";
    }
  }

  /** More than twenty digits, the first of them not `0`, are past `u64::MAX`. */
  lemma ParseU64TooLong(s: string)
    requires |s| > 20 && AllDigits(s) && s[0] != '0'
    ensures ParseU64(s) == Failure(PosOverflow)
  {
    assert Unsigned(s) == s by { assert IsDigit(s[0]); }
    DecimalValueLeading(s);
    Pow10Monotone(20, |s| - 1);
    Pow10Nineteen();
    assert Pow10(20) == 10 * Pow10(19);
  }

  /** Without a leading zero, `n` digits denote at least `10^(n-1)`. */
  lemma DecimalValueLeading(s: string)
    requires |s| > 0 && AllDigits(s) && s[0] != '0'
    ensures DecimalValue(s) >= Pow10(|s| - 1)
  {
    var d0, p := DigitValue(s[0]), Pow10(|s| - 1);
    assert d0 >= 1 by { assert IsDigit(s[0]); }
    assert DecimalValue(s) == d0 * p + DecimalValue(s[1..]);
    TimesAtLeastOne(d0, p);
  }

  lemma TimesAtLeastOne(d: nat, p: nat)
    requires d >= 1
    ensures d * p >= p
  {
  }

  /** The decimal `Display` of a natural number: no sign, no leading zeros. */
  function NatToString(n: nat): (s: string)
    ensures |s| >= 1 && forall i :: 0 <= i < |s| ==> IsDigit(s[i])
    ensures |s| > 1 ==> s[0] != '0'
    decreases n
  {
    if n < 10 then [DigitChar(n)] else NatToString(n / 10) + [DigitChar(n % 10)]
  }

  lemma {:induction false} ParseDigitsNatToString(n: nat)
    requires n <= U64_MAX
    ensures ParseDigits(NatToString(n)) == Success(n)
    decreases n
  {
    var s := NatToString(n);
    if n < 10 {
      assert s[..0] == "";
    } else {
      ParseDigitsNatToString(n / 10);
      assert s[..|s| - 1] == NatToString(n / 10);
    }
  }

  /** The printed form of `n` denotes `n`. */
  lemma {:induction false} DecimalValueNatToString(n: nat)
    ensures DecimalValue(NatToString(n)) == n
    decreases n
  {
    var s := NatToString(n);
    if n < 10 {
      assert s[1..] == "";
    } else {
      DecimalValueNatToString(n / 10);
      DecimalValueSnoc(s);
      assert s[..|s| - 1] == NatToString(n / 10);
    }
  }

  /** Printing a `u64` and parsing it back gives the same number. */
  lemma ParseU64NatToString(n: u64)
    ensures ParseU64(NatToString(n as nat)) == Success(n)
  {
    ParseDigitsNatToString(n as nat);
    var s := NatToString(n as nat);
    assert s != "+" by { assert IsDigit(s[0]); }
  }

  /** Digits contain neither letters nor the separators `'+'`, `'d'` and newline. */
  lemma NatToStringChars(n: nat)
    ensures '+' !in NatToString(n) && 'd' !in NatToString(n) && '\n' !in NatToString(n)
    ensures ToLower(NatToString(n)) == NatToString(n)
  {
    var s := NatToString(n);
    ToLowerUnchanged(s);
  }
}
