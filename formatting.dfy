/**
  The unit choice of `format_number`: a value is shown in billions, millions
  or thousands once it reaches that magnitude, and as is otherwise. Only the
  choice of unit and the scaled value are modelled, not the two-decimal text.
 */
module Formatting {

  const Thousand: real := 1000.0
  const Million: real := 1000000.0
  const Billion: real := 1000000000.0

  /** A value split into the number that is printed and the suffix that follows it. */
  datatype Scaled = Scaled(mantissa: real, suffix: string)

  /** The power of ten a suffix stands for. */
  function Divisor(suffix: string): (d: real)
    ensures d >= 1.0
  {
    match suffix
    case "B" => Billion
    case "M" => Million
    case "K" => Thousand
    case _ => 1.0
  }

  /** `format_number(value)` before rendering with two decimals. */
  function FormatUnit(value: real): (s: Scaled)
    ensures s.suffix in {"B", "M", "K", ""}
    ensures s.mantissa * Divisor(s.suffix) == value
  {
    if value >= Billion then Scaled(value / Billion, "B")
    else if value >= Million then Scaled(value / Million, "M")
    else if value >= Thousand then Scaled(value / Thousand, "K")
    else Scaled(value, "")
  }

  /** The rank of a suffix: no suffix, K, M, B. */
  function Rank(suffix: string): nat {
    match suffix
    case "K" => 1
    case "M" => 2
    case "B" => 3
    case _ => 0
  }

  /**
    The suffix is the largest unit the value reaches, so the printed number of
    a K or M value lies in [1, 1000), that of a B value is at least 1, and an
    unsuffixed value is below 1000 (negative values included).
   */
  lemma FormatUnitRange(value: real)
    ensures var s := FormatUnit(value);
      && (s.suffix == "B" <==> value >= Billion)
      && (s.suffix == "M" <==> Million <= value < Billion)
      && (s.suffix == "K" <==> Thousand <= value < Million)
      && (s.suffix == "" <==> value < Thousand)
      && (s.suffix in {"K", "M"} ==> 1.0 <= s.mantissa < 1000.0)
      && (s.suffix == "B" ==> s.mantissa >= 1.0)
      && (s.suffix == "" ==> s.mantissa == value < 1000.0)
  {
  }

  /** A larger value never gets a smaller unit. */
  lemma FormatUnitMonotone(a: real, b: real)
    requires a <= b
    ensures Rank(FormatUnit(a).suffix) <= Rank(FormatUnit(b).suffix)
  {
  }
}
