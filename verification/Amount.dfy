/** Exact decimal rendering of raw token amounts (indexer/src/formatAmount.js). */
module Amount {
  import opened Wrappers
  import opened Decimal

  /** `s.replace(/0+$/, "")` */
  function TrimZeros(s: string): string {
    if s != "" && s[|s| - 1] == '0' then TrimZeros(s[..|s| - 1]) else s
  }

  function FractionText(frac: nat, scale: nat, symbol: Option<string>): string {
    var trimmed := TrimZeros(PadStart(ToText(frac), scale));
    if symbol.Some? && trimmed == "" then "0" else trimmed
  }

  function DivMod(a: nat, d: nat): (r: (nat, nat))
    requires d > 0
    ensures a == r.0 * d + r.1 && r.1 < d
  {
    (a / d, a % d)
  }

  function Magnitude(whole: string, frac: string): string {
    if frac != "" then whole + "." + frac else whole
  }

  function FormatAmount(raw: int, symbol: Option<string>, scale: nat): string {
    var abs: nat := if raw < 0 then -raw else raw;
    var (whole, frac) := DivMod(abs, Pow10(scale));
    Decorate(Magnitude(ToText(whole), FractionText(frac, scale, symbol)), raw < 0, symbol)
  }

  function Decorate(magnitude: string, negative: bool, symbol: Option<string>): string {
    var signed := if negative then "-" + magnitude else magnitude;
    if symbol.Some? then signed + " " + symbol.value else signed
  }

  // ---------- an independent reader ----------

  /** The decimal fraction num / 10^places. */
  datatype Fraction = Fraction(num: int, places: nat)

  predicate Denotes(f: Fraction, raw: int, scale: nat) {
    f.num * Pow10(scale) == raw * Pow10(f.places)
  }

  /** The part of `s` before the first `c`. */
  function Before(s: string, c: char): (r: string)
    ensures |r| <= |s|
  {
    if s == "" || s[0] == c then "" else [s[0]] + Before(s[1..], c)
  }

  function ReadMagnitude(s: string): Option<Fraction> {
    var whole := Before(s, '.');
    var frac := if |whole| < |s| then s[|whole| + 1..] else "";
    if whole == "" || !AllDigits(whole) || !AllDigits(frac) || (|whole| < |s| && frac == "") then None
    else Some(Fraction(ValueOf(whole + frac), |frac|))
  }

  /** Reads an optional sign, digits, an optional fraction, and stops at a blank. */
  function ReadDecimal(text: string): Option<Fraction> {
    var s := Before(text, ' ');
    if s != "" && s[0] == '-' then
      match ReadMagnitude(s[1..])
      case None => None
      case Some(f) => Some(Fraction(-f.num, f.places))
    else ReadMagnitude(s)
  }

  lemma {:induction false} BeforeStops(a: string, c: char, rest: string)
    requires forall i :: 0 <= i < |a| ==> a[i] != c
    ensures Before(a, c) == a && Before(a + [c] + rest, c) == a
  {
    if a == "" {
      assert a + [c] + rest == [c] + rest;
    } else {
      BeforeStops(a[1..], c, rest);
      assert (a + [c] + rest)[1..] == a[1..] + [c] + rest;
    }
  }

  // ---------- exactness ----------

  /** Trimming drops zeros and nothing else, and leaves none at the end. */
  lemma {:induction false} TrimOnlyZeros(s: string)
    requires AllDigits(s)
    ensures |TrimZeros(s)| <= |s| && TrimZeros(s) + Zeros(|s| - |TrimZeros(s)|) == s && AllDigits(TrimZeros(s))
    ensures TrimZeros(s) != "" ==> TrimZeros(s)[|TrimZeros(s)| - 1] != '0'
  {
    if s != "" && s[|s| - 1] == '0' {
      var s' := s[..|s| - 1];
      TrimOnlyZeros(s');
      assert s == s' + "0";
      assert Zeros(|s| - |TrimZeros(s')|) == Zeros(|s'| - |TrimZeros(s')|) + "0";
    }
  }

  /** The printed fraction, read as digits over 10^places, is frac / 10^scale. */
  lemma FractionExact(frac: nat, scale: nat, symbol: Option<string>)
    requires frac < Pow10(scale)
    ensures
      var t := FractionText(frac, scale, symbol);
      && AllDigits(t) && ValueOf(t) * Pow10(scale) == frac * Pow10(|t|)
      && (t != "" ==> t[|t| - 1] != '0' || (symbol.Some? && t == "0"))
      && (symbol.Some? ==> t != "")
  {
    hide ValueOf, ToText, TrimZeros, PadStart, Zeros;
    var padded := PadStart(ToText(frac), scale);
    PadValue(frac, scale);
    ZeroFraction();
    if scale == 0 {
      assert Pow10(0) == 1;
    } else {
      hide Pow10;
      TrimIsExact(padded);
    }
  }

  lemma TrimIsExact(s: string)
    requires AllDigits(s)
    ensures
      var t := TrimZeros(s);
      && AllDigits(t) && ValueOf(t) * Pow10(|s|) == ValueOf(s) * Pow10(|t|)
      && (t != "" ==> t[|t| - 1] != '0')
      && (t == "" ==> ValueOf(s) == 0)
  {
    hide ValueOf, TrimZeros, Zeros, Pow10;
    TrimOnlyZeros(s);
    var t := TrimZeros(s);
    var z := |s| - |t|;
    ValueConcat(t, Zeros(z));
    ZerosValue(z);
    Pow10Add(|t|, z);
    ZeroFraction();
    Regroup(ValueOf(t), Pow10(z), Pow10(|t|));
  }

  lemma ZeroFraction()
    ensures TrimZeros(PadStart(ToText(0), 0)) == "" && ValueOf("") == 0 && ValueOf("0") == 0
  {
    assert "0"[..0] == "";
    assert TrimZeros("0") == TrimZeros("0"[..0]);
  }

  lemma Regroup(v: nat, z: nat, t: nat)
    ensures v * (t * z) == v * z * t
  {
  }

  lemma ReadsMagnitude(whole: string, frac: string)
    requires AllDigits(whole) && whole != "" && AllDigits(frac)
    ensures ReadMagnitude(Magnitude(whole, frac)) == Some(Fraction(ValueOf(whole + frac), |frac|))
  {
    BeforeStops(whole, '.', frac);
    var s := Magnitude(whole, frac);
    if frac != "" {
      assert s[|whole| + 1..] == frac;
    }
    hide ValueOf;
  }

  predicate Numeric(s: string) {
    forall i :: 0 <= i < |s| ==> IsDigit(s[i]) || s[i] == '.'
  }

  lemma ReadsSigned(s: string, negative: bool, symbol: Option<string>)
    requires Numeric(s) && s != ""
    ensures ReadDecimal(Decorate(s, negative, symbol)) ==
        match ReadMagnitude(s)
        case None => None
        case Some(f) => Some(if negative then Fraction(-f.num, f.places) else f)
  {
    var signed := if negative then "-" + s else s;
    NoBlank(s);
    hide ReadMagnitude, Before, Numeric;
    assert Before(Decorate(s, negative, symbol), ' ') == signed by {
      BeforeStops(signed, ' ', if symbol.Some? then symbol.value else "");
    }
    hide Decorate;
    assert ("-" + s)[1..] == s;
  }

  lemma NoBlank(s: string)
    requires Numeric(s) && s != ""
    ensures s[0] != '-' && forall i :: 0 <= i < |s| ==> s[i] != ' '
  {
    assert IsDigit(s[0]) || s[0] == '.';
  }

  lemma WholeAndFraction(w: nat, v: nat, r: nat, p: nat, t: nat)
    requires v * p == r * t
    ensures (w * t + v) * p == (w * p + r) * t
  {
  }

  lemma JoinDenotes(whole: nat, frac: nat, w: string, t: string, abs: nat, scale: nat)
    requires AllDigits(w) && ValueOf(w) == whole && abs == whole * Pow10(scale) + frac
    requires AllDigits(t) && ValueOf(t) * Pow10(scale) == frac * Pow10(|t|)
    ensures AllDigits(w + t) && Denotes(Fraction(ValueOf(w + t), |t|), abs, scale)
  {
    ValueConcat(w, t);
    WholeAndFraction(whole, ValueOf(t), frac, Pow10(scale), Pow10(|t|));
    hide ValueOf, Pow10, AllDigits;
  }

  lemma MagnitudeIsExact(abs: nat, symbol: Option<string>, scale: nat)
    ensures
      var (whole, frac) := DivMod(abs, Pow10(scale));
      var s := Magnitude(ToText(whole), FractionText(frac, scale, symbol));
      var read := ReadMagnitude(s);
      && Numeric(s) && s != "" && read.Some? && Denotes(read.value, abs, scale)
      && (symbol.None? && read.value.places > 0 ==> read.value.num % 10 != 0)
  {
    hide Pow10, ToText, FractionText, ReadMagnitude, Magnitude, Numeric, Denotes, ValueOf, AllDigits;
    var (whole, frac) := DivMod(abs, Pow10(scale));
    var w, t := ToText(whole), FractionText(frac, scale, symbol);
    FractionExact(frac, scale, symbol);
    ValueOfText(whole);
    JoinDenotes(whole, frac, w, t, abs, scale);
    NumericMagnitude(w, t);
    ReadsMagnitude(w, t);
    if t != "" {
      LastDigit(w + t);
      assert (w + t)[|w + t| - 1] == t[|t| - 1];
    }
  }

  lemma NumericMagnitude(w: string, t: string)
    requires AllDigits(w) && w != "" && AllDigits(t)
    ensures Numeric(Magnitude(w, t)) && Magnitude(w, t) != ""
  {
  }

  /** The text denotes exactly raw / 10^scale. Without a symbol it never ends in a zero behind the point. */
  lemma FormatIsExact(raw: int, symbol: Option<string>, scale: nat)
    ensures
      var read := ReadDecimal(FormatAmount(raw, symbol, scale));
      && read.Some? && Denotes(read.value, raw, scale)
      && (symbol.None? && read.value.places > 0 ==> read.value.num % 10 != 0)
  {
    hide Pow10, Decorate, Denotes, ReadDecimal, ReadMagnitude, ToText, FractionText, Magnitude, Numeric;
    var abs: nat := if raw < 0 then -raw else raw;
    MagnitudeIsExact(abs, symbol, scale);
    var (whole, frac) := DivMod(abs, Pow10(scale));
    var s := Magnitude(ToText(whole), FractionText(frac, scale, symbol));
    ReadsSigned(s, raw < 0, symbol);
    Negate(ReadMagnitude(s).value, abs, scale);
  }

  lemma {:induction false} NoLeadingZero(n: nat)
    ensures ToText(n)[0] == '0' ==> ToText(n) == "0"
  {
    if n >= 10 {
      NoLeadingZero(n / 10);
      ValueOfText(n / 10);
      assert ToText(n)[0] == ToText(n / 10)[0];
      SingleDigit('0');
    }
  }

  /**
   * The text in its parts: a sign, the whole units without a leading zero, a point and the fraction where there is
   * one, without a zero at its end unless it is one that a symbol asks for, and the symbol behind a blank.
   */
  lemma FormatParts(raw: int, symbol: Option<string>, scale: nat) returns (whole: string, frac: string)
    ensures
      && AllDigits(whole) && whole != "" && (whole[0] == '0' ==> whole == "0")
      && AllDigits(frac) && (frac != "" ==> frac[|frac| - 1] != '0' || (symbol.Some? && frac == "0"))
      && (symbol.Some? ==> frac != "")
    ensures
      var abs: nat := if raw < 0 then -raw else raw;
      && ValueOf(whole) == abs / Pow10(scale)
      && ValueOf(frac) * Pow10(scale) == abs % Pow10(scale) * Pow10(|frac|)
    ensures FormatAmount(raw, symbol, scale) ==
      (if raw < 0 then "-" else "") + (whole + if frac == "" then "" else "." + frac)
      + (if symbol.Some? then " " + symbol.value else "")
  {
    hide Pow10, ToText, FractionText;
    var abs: nat := if raw < 0 then -raw else raw;
    var (w, f) := DivMod(abs, Pow10(scale));
    whole, frac := ToText(w), FractionText(f, scale, symbol);
    FractionExact(f, scale, symbol);
    ValueOfText(w);
    NoLeadingZero(w);
    hide ValueOf, AllDigits;
    PrintsParts(whole, frac, raw < 0, symbol);
  }

  lemma PrintsParts(whole: string, frac: string, negative: bool, symbol: Option<string>)
    ensures Decorate(Magnitude(whole, frac), negative, symbol) ==
      (if negative then "-" else "") + (whole + if frac == "" then "" else "." + frac)
      + (if symbol.Some? then " " + symbol.value else "")
  {
    var m := Magnitude(whole, frac);
    assert m == whole + if frac == "" then "" else "." + frac;
    assert "" + m == m && m + "" == m && "-" + m + "" == "-" + m;
  }

  lemma LastDigit(s: string)
    requires AllDigits(s) && s != ""
    ensures ValueOf(s) % 10 == DigitValue(s[|s| - 1])
  {
  }

  lemma Negate(f: Fraction, abs: int, scale: nat)
    requires Denotes(f, abs, scale)
    ensures Denotes(Fraction(-f.num, f.places), -abs, scale)
    ensures (-f.num) % 10 == 0 <==> f.num % 10 == 0
  {
  }

  /** For a fixed scale and symbol, different amounts never share a text. */
  lemma FormatIsInjective(a: int, b: int, symbol: Option<string>, scale: nat)
    requires FormatAmount(a, symbol, scale) == FormatAmount(b, symbol, scale)
    ensures a == b
  {
    FormatIsExact(a, symbol, scale);
    FormatIsExact(b, symbol, scale);
    hide FormatAmount, Pow10;
    Cancel(a, b, Pow10(ReadDecimal(FormatAmount(a, symbol, scale)).value.places));
  }

  lemma Cancel(a: int, b: int, p: nat)
    requires p > 0 && a * p == b * p
    ensures a == b
  {
    assert (a - b) * p == 0;
  }
}
