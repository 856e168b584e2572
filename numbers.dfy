/**
 `Number(text)` for the argument of the max-size command, on decimal literals:
 an optional sign, then `digits`, `digits.`, `digits.digits` or `.digits`.
 Every other text is `NaN` here.
 */
module Numbers {

  import opened Text

  datatype Num = NaN | Finite(v: real)

  predicate AllDigits(s: string) {
    forall k :: 0 <= k < |s| ==> IsDigit(s[k])
  }

  function DigitsValue(ds: string): nat
    requires AllDigits(ds)
  {
    if ds == [] then 0 else 10 * DigitsValue(ds[..|ds| - 1]) + (ds[|ds| - 1] as int - '0' as int)
  }

  function Pow10(n: nat): (p: nat)
    ensures p >= 1
  {
    if n == 0 then 1 else 10 * Pow10(n - 1)
  }

  /** A digit string of length `n` denotes less than `10^n`. */
  lemma {:induction false} DigitsValueBound(ds: string)
    requires AllDigits(ds)
    ensures DigitsValue(ds) < Pow10(|ds|)
  {
    if ds != [] {
      DigitsValueBound(ds[..|ds| - 1]);
    }
  }

  /** An unsigned decimal literal. */
  function UnsignedValue(s: string): (r: Num)
    ensures s == "" ==> r.NaN?
    ensures r.Finite? ==> r.v >= 0.0
  {
    var parts := Split(s, '.');
    if |parts| == 1 then
      if s != "" && AllDigits(s) then Finite(DigitsValue(s) as real) else NaN
    else if |parts| == 2 && AllDigits(parts[0]) && AllDigits(parts[1]) && (parts[0] != "" || parts[1] != "") then
      Finite(DigitsValue(parts[0]) as real + DigitsValue(parts[1]) as real / Pow10(|parts[1]|) as real)
    else NaN
  }

  /** `Number(s)` for a decimal literal with an optional sign (`Number("")` is 0). */
  function ToNumber(s: string): (r: Num)
    ensures s == "" ==> r == Finite(0.0)
    ensures r.Finite? && r.v < 0.0 ==> s[0] == '-'
  {
    if s == "" then Finite(0.0)
    else if s[0] == '+' then UnsignedValue(s[1..])
    else if s[0] == '-' then
      match UnsignedValue(s[1..])
      case Finite(v) => Finite(-v)
      case NaN => NaN
    else UnsignedValue(s)
  }

  /** A numeral without a sign or a point is read as the natural number it spells. */
  lemma NumeralValue(s: string)
    requires s != "" && AllDigits(s)
    ensures ToNumber(s) == Finite(DigitsValue(s) as real)
  {
    assert '.' !in s by {
      forall k | 0 <= k < |s| ensures s[k] != '.' { assert IsDigit(s[k]); }
    }
    SplitWithoutSeparator(s, '.');
    assert IsDigit(s[0]);
  }

  lemma QuotientBelowOne(n: nat, p: nat)
    requires n < p
    ensures 0.0 <= n as real / p as real < 1.0
  {
    var q := n as real / p as real;
    assert q * p as real == n as real;
  }

  /** The value of an unsigned literal is never negative, and its floor is its integer part. */
  lemma UnsignedFloor(s: string)
    requires UnsignedValue(s).Finite?
    ensures UnsignedValue(s).v >= 0.0
    ensures AllDigits(Split(s, '.')[0]) && UnsignedValue(s).v.Floor == DigitsValue(Split(s, '.')[0])
  {
    var parts := Split(s, '.');
    if |parts| == 2 {
      var f := parts[1];
      DigitsValueBound(f);
      QuotientBelowOne(DigitsValue(f), Pow10(|f|));
      var whole := DigitsValue(parts[0]);
      var frac := DigitsValue(f) as real / Pow10(|f|) as real;
      assert UnsignedValue(s).v == whole as real + frac;
    } else {
      assert parts[0] == s by { JoinSplit(s, '.'); }
    }
  }
}
