/** Decoding timestamps that arrive as decimal text with a fixed number of fraction digits. */
module Timestamp {

  // ---------------------------------------------------------------------------
  // Decimal text

  predicate Digits(s: string) {
    forall i :: 0 <= i < |s| ==> '0' <= s[i] <= '9'
  }

  function Pow10(n: nat): (p: nat)
    ensures p > 0
  {
    if n == 0 then 1 else 10 * Pow10(n - 1)
  }

  function DigitsValue(s: string): nat
    requires Digits(s)
  {
    if s == [] then 0 else 10 * DigitsValue(s[..|s| - 1]) + (s[|s| - 1] as int - '0' as int)
  }

  /** Python's `int` on an optional sign and digits. */
  function IntOf(s: string): int
    requires Digits(if s != [] && s[0] == '-' then s[1..] else s)
  {
    if s != [] && s[0] == '-' then 0 - DigitsValue(s[1..]) else DigitsValue(s)
  }

  /** Python's `str` on a natural number. */
  function Decimal(n: nat): (s: string)
    ensures Digits(s) && s != []
  {
    var last := [('0' as int + n % 10) as char];
    if n < 10 then last else Decimal(n / 10) + last
  }

  function Zeros(n: nat): (s: string)
    ensures |s| == n && Digits(s)
  {
    seq(n, i => '0')
  }

  lemma {:induction false} DecimalValue(n: nat)
    ensures DigitsValue(Decimal(n)) == n
  {
    var s := Decimal(n);
    if n < 10 {
      assert s[..0] == [];
    } else {
      assert s[..|s| - 1] == Decimal(n / 10);
      DecimalValue(n / 10);
    }
  }

  lemma TimesTen(a: nat, p: nat)
    ensures 10 * (a * p) == a * (10 * p)
  {
  }

  lemma {:induction false} ZerosScale(s: string, n: nat)
    requires Digits(s)
    ensures Digits(s + Zeros(n)) && DigitsValue(s + Zeros(n)) == DigitsValue(s) * Pow10(n)
    decreases n
  {
    if n == 0 {
      assert s + Zeros(0) == s;
    } else {
      var t := s + Zeros(n);
      assert t[..|t| - 1] == s + Zeros(n - 1);
      ZerosScale(s, n - 1);
      TimesTen(DigitsValue(s), Pow10(n - 1));
    }
  }

  lemma {:induction false} DigitsBelow(s: string)
    requires Digits(s)
    ensures DigitsValue(s) < Pow10(|s|)
    decreases |s|
  {
    if s != [] {
      DigitsBelow(s[..|s| - 1]);
    }
  }

  /** The position of the first dot, or the length. */
  function DotAt(value: string): (n: nat)
    ensures n <= |value| && (forall i :: 0 <= i < n ==> value[i] != '.') && (n < |value| ==> value[n] == '.')
  {
    if value == [] || value[0] == '.' then 0 else 1 + DotAt(value[1..])
  }

  /** A well-formed value: optional sign, digits, and `|fraction|` fraction digits after a dot if any. */
  function Text(negative: bool, whole: string, fraction: string): string {
    (if negative then "-" else []) + whole + (if fraction == [] then [] else "." + fraction)
  }

  // ---------------------------------------------------------------------------
  // The decoders

  function Lhs(value: string): string { value[..DotAt(value)] }

  function Rhs(value: string): string { if DotAt(value) == |value| then [] else value[DotAt(value) + 1..] }

  predicate Parses(value: string) {
    && value != [] && Digits(Rhs(value))
    && var whole := if Lhs(value) != [] && Lhs(value)[0] == '-' then Lhs(value)[1..] else Lhs(value);
       whole != [] && Digits(whole)
  }

  /** The fraction in microseconds, rounded away from zero below it and toward zero above it; the
      quotients are small enough for the float division of the original to be exact. */
  function Micros(negative: bool, fraction: nat, scale: nat): int {
    if scale < 6 then fraction * Pow10(6 - scale)
    else if scale > 6 then
      var unit := Pow10(scale - 6);
      if negative then (fraction + unit - 1) / unit else fraction / unit
    else fraction
  }

  /** `get_seconds_microseconds`. */
  function GetSecondsMicroseconds(value: string, scale: nat): (int, int)
    requires Parses(value)
  {
    FromParts(value[0] == '-', IntOf(Lhs(value)), DigitsValue(Rhs(value)), scale)
  }

  function FromParts(negative: bool, seconds: int, fraction: nat, scale: nat): (int, int) {
    var microseconds := Micros(negative, fraction, scale);
    (seconds, if negative then 0 - microseconds else microseconds)
  }

  /** `_adjust_fraction_of_nanoseconds` with `max_fraction` equal to ten to the scale. */
  function AdjustFraction(value: string, scale: nat): int
    requires value != [] && scale <= 9 && scale <= |value| && Digits(value[|value| - scale..])
  {
    if scale == 0 then 0 else FractionNanos(value[0] == '-', value[|value| - scale..])
  }

  function FractionNanos(negative: bool, digits: string): nat
    requires Digits(digits) && |digits| <= 9
  {
    var fraction := DigitsValue(digits);
    if !negative then ZeroFilled(digits, 9 - |digits|)
    else if fraction == 0 then 0
    else
      DigitsBelow(digits);
      ZeroFilled(Decimal(Pow10(|digits|) - fraction), 9 - |digits|)
  }

  /** Digits read with `n` zeros appended. */
  function ZeroFilled(s: string, n: nat): (r: nat)
    requires Digits(s)
    ensures r == DigitsValue(s) * Pow10(n)
  {
    ZerosScale(s, n);
    DigitsValue(s + Zeros(n))
  }

  // ---------------------------------------------------------------------------
  // What they mean

  /** The value in units of ten to the minus scale. */
  function Units(negative: bool, whole: string, fraction: string): int
    requires Digits(whole) && Digits(fraction)
  {
    var n := DigitsValue(whole) * Pow10(|fraction|) + DigitsValue(fraction);
    if negative then -n else n
  }

  /** The first dot after text without one. */
  lemma {:induction false} DotAfter(lhs: string, rest: string)
    requires '.' !in lhs && (rest == [] || rest[0] == '.')
    ensures DotAt(lhs + rest) == |lhs|
    decreases |lhs|
  {
    if lhs == [] {
      assert lhs + rest == rest;
    } else {
      assert (lhs + rest)[1..] == lhs[1..] + rest;
      DotAfter(lhs[1..], rest);
    }
  }

  lemma TextSplits(negative: bool, whole: string, fraction: string)
    requires Digits(whole) && whole != [] && Digits(fraction)
    ensures var value := Text(negative, whole, fraction);
            && value != [] && (value[0] == '-' <==> negative)
            && Lhs(value) == (if negative then "-" else []) + whole && Rhs(value) == fraction
            && |fraction| <= |value| && value[|value| - |fraction|..] == fraction
  {
    var value := Text(negative, whole, fraction);
    var lhs := (if negative then "-" else []) + whole;
    var rest := if fraction == [] then [] else "." + fraction;
    assert value == lhs + rest;
    DotAfter(lhs, rest);
    assert value[..|lhs|] == lhs;
    assert fraction != [] ==> value[|lhs| + 1..] == fraction;
    assert value[|value| - |fraction|..] == fraction;
  }

  lemma TextParses(negative: bool, whole: string, fraction: string)
    requires Digits(whole) && whole != [] && Digits(fraction)
    ensures var value := Text(negative, whole, fraction);
            && Parses(value) && DigitsValue(Rhs(value)) == DigitsValue(fraction)
            && IntOf(Lhs(value)) == (if negative then 0 - DigitsValue(whole) else DigitsValue(whole))
  {
    TextSplits(negative, whole, fraction);
    var lhs := (if negative then "-" else []) + whole;
    if negative {
      assert lhs[1..] == whole;
    } else {
      assert lhs == whole;
    }
  }

  lemma Pow10Values()
    ensures Pow10(0) == 1 && Pow10(1) == 10 && Pow10(2) == 100 && Pow10(3) == 1000 && Pow10(4) == 10000
    ensures Pow10(5) == 100000 && Pow10(6) == 1000000 && Pow10(7) == 10000000 && Pow10(8) == 100000000
    ensures Pow10(9) == 1000000000
  {
    assert Pow10(3) == 10 * Pow10(2);
    assert Pow10(6) == 10 * Pow10(5) == 100 * Pow10(4) == 1000 * Pow10(3);
    assert Pow10(9) == 10 * Pow10(8) == 100 * Pow10(7) == 1000 * Pow10(6);
  }

  /** What the decoder makes of a well-formed value, in numbers. */
  lemma Decoded(negative: bool, whole: string, fraction: string)
    requires Digits(whole) && whole != [] && Digits(fraction)
    ensures Parses(Text(negative, whole, fraction))
    ensures GetSecondsMicroseconds(Text(negative, whole, fraction), |fraction|)
            == FromParts(negative, if negative then 0 - DigitsValue(whole) else DigitsValue(whole),
                         DigitsValue(fraction), |fraction|)
  {
    TextSplits(negative, whole, fraction);
    TextParses(negative, whole, fraction);
    assert (Text(negative, whole, fraction)[0] == '-') == negative;
  }

  /** The decoded pair as microseconds since the epoch. */
  function Microseconds(decoded: (int, int)): int {
    decoded.0 * 1000000 + decoded.1
  }

  /** `total` is the floor, in microseconds, of `n` units of ten to the minus scale. */
  predicate IsFloor(total: int, n: int, scale: nat) {
    total * Pow10(scale) <= n * 1000000 < (total + 1) * Pow10(scale)
  }

  function Total(negative: bool, w: nat, f: nat, scale: nat): int {
    Microseconds(FromParts(negative, if negative then 0 - w else w, f, scale))
  }

  lemma MicrosExact(negative: bool, w: nat, f: nat, scale: nat)
    requires scale <= 6
    ensures var n := w * Pow10(scale) + f;
            Total(negative, w, f, scale) * Pow10(scale) == (if negative then -n else n) * 1000000
  {
    Pow10Values();
    match scale
    case 0 =>
    case 1 =>
    case 2 =>
    case 3 =>
    case 4 =>
    case 5 =>
    case _ => assert scale == 6;
  }

  lemma MicrosRounded(negative: bool, w: nat, f: nat, scale: nat)
    requires 6 < scale <= 9
    ensures var n, total := w * Pow10(scale) + f, Total(negative, w, f, scale);
            total * Pow10(scale) <= (if negative then -n else n) * 1000000 < (total + 1) * Pow10(scale)
  {
    Pow10Values();
    match scale
    case 7 =>
    case 8 =>
    case _ => assert scale == 9;
  }

  lemma OneMore(total: int, p: nat)
    ensures (total + 1) * p == total * p + p
  {
  }

  lemma TotalIsFloor(negative: bool, w: nat, f: nat, scale: nat)
    requires scale <= 9
    ensures var n := w * Pow10(scale) + f; IsFloor(Total(negative, w, f, scale), if negative then -n else n, scale)
  {
    if scale <= 6 {
      MicrosExact(negative, w, f, scale);
      OneMore(Total(negative, w, f, scale), Pow10(scale));
    } else {
      MicrosRounded(negative, w, f, scale);
    }
  }

  /** Seconds and microseconds add up to the floor of the value in microseconds, for either sign. */
  lemma MicrosecondsFloor(negative: bool, whole: string, fraction: string)
    requires Digits(whole) && whole != [] && Digits(fraction) && |fraction| <= 9
    ensures var value, scale := Text(negative, whole, fraction), |fraction|;
            && Parses(value)
            && IsFloor(Microseconds(GetSecondsMicroseconds(value, scale)), Units(negative, whole, fraction), scale)
            && GetSecondsMicroseconds(value, scale).0 == (if negative then 0 - DigitsValue(whole) else DigitsValue(whole))
            && (if negative then -1000000 <= GetSecondsMicroseconds(value, scale).1 <= 0
                else 0 <= GetSecondsMicroseconds(value, scale).1 < 1000000)
  {
    DecodedTotal(negative, whole, fraction);
    Decoded(negative, whole, fraction);
    DigitsBelow(fraction);
    MicrosWithinSecond(negative, DigitsValue(fraction), |fraction|);
    TotalIsFloor(negative, DigitsValue(whole), DigitsValue(fraction), |fraction|);
  }

  lemma MicrosWithinSecond(negative: bool, f: nat, scale: nat)
    requires scale <= 9 && f < Pow10(scale)
    ensures 0 <= Micros(negative, f, scale) <= 1000000 && (!negative ==> Micros(negative, f, scale) < 1000000)
  {
    Pow10Values();
    match scale
    case 0 =>
    case 1 =>
    case 2 =>
    case 3 =>
    case 4 =>
    case 5 =>
    case 6 =>
    case 7 =>
    case 8 =>
    case _ => assert scale == 9;
  }

  lemma NanosMean(negative: bool, digits: string)
    requires Digits(digits) && |digits| <= 9
    ensures FractionNanos(negative, digits) == Nanos(negative, DigitsValue(digits), |digits|)
  {
    DigitsBelow(digits);
    var f := DigitsValue(digits);
    if negative && f > 0 {
      DecimalValue(Pow10(|digits|) - f);
    }
  }

  /** Nanoseconds within the second. */
  function Nanos(negative: bool, f: nat, scale: nat): int
    requires scale <= 9
  {
    (if negative && f > 0 then Pow10(scale) - f else f) * Pow10(9 - scale)
  }

  lemma WithinSecond(w: nat, m: int)
    ensures (w * 1000000 + m) % 1000000 == m % 1000000 && (0 - w * 1000000 - m) % 1000000 == (0 - m) % 1000000
  {
  }

  lemma SameExact(negative: bool, f: nat, scale: nat)
    requires scale <= 6 && f < Pow10(scale)
    ensures (if negative then 0 - Micros(true, f, scale) else Micros(false, f, scale)) % 1000000
            == Nanos(negative, f, scale) / 1000
  {
    Pow10Values();
    match scale
    case 0 =>
    case 1 =>
    case 2 =>
    case 3 =>
    case 4 =>
    case 5 =>
    case _ => assert scale == 6;
  }

  lemma SameRounded(negative: bool, f: nat, scale: nat)
    requires 6 < scale <= 9 && f < Pow10(scale)
    ensures (if negative then 0 - Micros(true, f, scale) else Micros(false, f, scale)) % 1000000
            == Nanos(negative, f, scale) / 1000
  {
    Pow10Values();
    SameRoundedBy(negative, f, Pow10(scale - 6), Pow10(9 - scale));
  }

  lemma SameRoundedBy(negative: bool, f: nat, unit: nat, rest: nat)
    requires (unit, rest) == (10, 100) || (unit, rest) == (100, 10) || (unit, rest) == (1000, 1)
    requires f < 1000000 * unit
    ensures (if negative then 0 - (f + unit - 1) / unit else f / unit) % 1000000
            == (if negative && f > 0 then 1000000 * unit - f else f) * rest / 1000
  {
    Rounded(f / unit, f % unit, unit);
    Scaled(if negative && f > 0 then 1000000 * unit - f else f, unit, rest);
  }

  /** Rounding up before negating is rounding the complement down. */
  lemma Rounded(k: nat, r: nat, unit: nat)
    requires (unit == 10 || unit == 100 || unit == 1000) && r < unit && k < 1000000
    ensures var f := k * unit + r;
            && f / unit == k
            && (0 - (f + unit - 1) / unit) % 1000000 == (if f > 0 then 1000000 * unit - f else 0) / unit
  {
    if r == 0 {
      assert (k * unit + unit - 1) / unit == k;
    } else {
      assert (k * unit + r + unit - 1) / unit == k + 1;
    }
  }

  lemma Scaled(n: nat, unit: nat, rest: nat)
    requires (unit, rest) == (10, 100) || (unit, rest) == (100, 10) || (unit, rest) == (1000, 1)
    ensures n * rest / 1000 == n / unit
  {
  }

  lemma SameMicroseconds(negative: bool, w: nat, f: nat, scale: nat)
    requires scale <= 9 && f < Pow10(scale)
    ensures Total(negative, w, f, scale) % 1000000 == Nanos(negative, f, scale) / 1000
  {
    WithinSecond(w, Micros(negative, f, scale));
    if scale <= 6 {
      SameExact(negative, f, scale);
    } else {
      SameRounded(negative, f, scale);
    }
  }

  lemma TextTail(negative: bool, whole: string, fraction: string)
    requires Digits(whole) && whole != [] && Digits(fraction)
    ensures var value := Text(negative, whole, fraction);
            && value != [] && (value[0] == '-' <==> negative)
            && |fraction| <= |value| && value[|value| - |fraction|..] == fraction
  {
    TextSplits(negative, whole, fraction);
  }

  lemma NoFraction(negative: bool)
    ensures Nanos(negative, DigitsValue([]), 0) == 0
  {
  }

  lemma AdjustedNanos(negative: bool, whole: string, fraction: string)
    requires Digits(whole) && whole != [] && Digits(fraction) && |fraction| <= 9
    ensures var value, scale := Text(negative, whole, fraction), |fraction|;
            && value != [] && scale <= |value| && Digits(value[|value| - scale..])
            && AdjustFraction(value, scale) == Nanos(negative, DigitsValue(fraction), scale)
  {
    TextTail(negative, whole, fraction);
    if fraction == [] {
      NoFraction(negative);
    } else {
      NanosMean(negative, fraction);
    }
  }

  lemma DecodedTotal(negative: bool, whole: string, fraction: string)
    requires Digits(whole) && whole != [] && Digits(fraction)
    ensures Parses(Text(negative, whole, fraction))
    ensures Microseconds(GetSecondsMicroseconds(Text(negative, whole, fraction), |fraction|))
            == Total(negative, DigitsValue(whole), DigitsValue(fraction), |fraction|)
  {
    Decoded(negative, whole, fraction);
  }

  /** The two decoders agree on the microseconds within the second. */
  lemma DecodersAgree(negative: bool, whole: string, fraction: string)
    requires Digits(whole) && whole != [] && Digits(fraction) && |fraction| <= 9
    ensures var value, scale := Text(negative, whole, fraction), |fraction|;
            && Parses(value) && scale <= |value| && Digits(value[|value| - scale..])
            && Microseconds(GetSecondsMicroseconds(value, scale)) % 1000000 == AdjustFraction(value, scale) / 1000
  {
    DecodedTotal(negative, whole, fraction);
    AdjustedNanos(negative, whole, fraction);
    DigitsBelow(fraction);
    SameMicroseconds(negative, DigitsValue(whole), DigitsValue(fraction), |fraction|);
  }
}
