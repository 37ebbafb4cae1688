/** Decimal texts: how JavaScript prints, pads and compares them, and what they denote. */
module Decimal {

  predicate IsDigit(c: char) {
    '0' <= c <= '9'
  }

  predicate AllDigits(s: string) {
    forall i :: 0 <= i < |s| ==> IsDigit(s[i])
  }

  function DigitChar(d: nat): (c: char)
    requires d < 10
    ensures IsDigit(c) && DigitValue(c) == d
  {
    ['0', '1', '2', '3', '4', '5', '6', '7', '8', '9'][d]
  }

  function DigitValue(c: char): (d: nat)
    requires IsDigit(c)
    ensures d < 10
  {
    c as int - '0' as int
  }

  function Pow10(k: nat): (r: nat)
    ensures r > 0
  {
    if k == 0 then 1 else 10 * Pow10(k - 1)
  }

  /** `String(n)` for a natural number. */
  function ToText(n: nat): (s: string)
    ensures AllDigits(s) && s != ""
  {
    if n < 10 then [DigitChar(n)] else ToText(n / 10) + [DigitChar(n % 10)]
  }

  function ValueOf(s: string): nat
    requires AllDigits(s)
  {
    if s == "" then 0 else 10 * ValueOf(s[..|s| - 1]) + DigitValue(s[|s| - 1])
  }

  function Zeros(n: nat): (s: string)
    ensures |s| == n && AllDigits(s)
  {
    seq(n, _ => '0')
  }

  /** `s.padStart(width, "0")` */
  function PadStart(s: string, width: nat): string {
    if |s| >= width then s else Zeros(width - |s|) + s
  }

  lemma {:induction false} Pow10Add(a: nat, b: nat)
    ensures Pow10(a + b) == Pow10(a) * Pow10(b)
  {
    if b > 0 {
      Pow10Add(a, b - 1);
      assert Pow10(a) * (10 * Pow10(b - 1)) == 10 * (Pow10(a) * Pow10(b - 1));
    }
  }

  lemma {:induction false} ValueConcat(a: string, b: string)
    requires AllDigits(a) && AllDigits(b)
    ensures AllDigits(a + b) && ValueOf(a + b) == ValueOf(a) * Pow10(|b|) + ValueOf(b)
  {
    if b == "" {
      assert a + b == a;
    } else {
      var b', d := b[..|b| - 1], DigitValue(b[|b| - 1]);
      assert (a + b)[..|a + b| - 1] == a + b';
      ValueConcat(a, b');
      assert ValueOf(a + b) == 10 * ValueOf(a + b') + d && ValueOf(b) == 10 * ValueOf(b') + d;
      assert Pow10(|b|) == 10 * Pow10(|b'|);
      hide ValueOf, Pow10, AllDigits;
      ShiftDigit(ValueOf(a), Pow10(|b'|), ValueOf(b'), d);
    }
  }

  lemma ShiftDigit(v: nat, p: nat, w: nat, d: nat)
    ensures 10 * (v * p + w) + d == v * (10 * p) + (10 * w + d)
  {
  }

  lemma {:induction false} ZerosValue(n: nat)
    ensures ValueOf(Zeros(n)) == 0
  {
    if n > 0 {
      assert Zeros(n)[..n - 1] == Zeros(n - 1);
      ZerosValue(n - 1);
    }
  }

  lemma {:induction false} ValueBound(s: string)
    requires AllDigits(s)
    ensures ValueOf(s) < Pow10(|s|)
  {
    if s != "" {
      ValueBound(s[..|s| - 1]);
    }
  }

  lemma {:induction false} ValueOfText(n: nat)
    ensures ValueOf(ToText(n)) == n
  {
    if n < 10 {
      assert ToText(n)[..0] == "";
    } else {
      ValueOfText(n / 10);
      assert ToText(n)[..|ToText(n)| - 1] == ToText(n / 10);
    }
  }

  /** A number is printed with exactly the digits it needs. */
  lemma {:induction false} TextLength(n: nat, k: nat)
    requires k > 0
    ensures |ToText(n)| <= k <==> n < Pow10(k)
  {
    if n >= 10 && k > 1 {
      TextLength(n / 10, k - 1);
    } else if n < 10 {
      assert Pow10(k - 1) >= 1;
    }
  }

  lemma PadValue(n: nat, width: nat)
    ensures AllDigits(PadStart(ToText(n), width)) && ValueOf(PadStart(ToText(n), width)) == n
    ensures width > 0 ==> (|PadStart(ToText(n), width)| == width <==> n < Pow10(width))
  {
    hide ToText, Pow10, ValueOf, Zeros;
    ValueOfText(n);
    if width > 0 { TextLength(n, width); }
    if |ToText(n)| < width { ZeroExtend(width - |ToText(n)|, ToText(n)); }
  }

  lemma ZeroExtend(k: nat, s: string)
    requires AllDigits(s)
    ensures AllDigits(Zeros(k) + s) && ValueOf(Zeros(k) + s) == ValueOf(s)
  {
    ZerosValue(k);
    ValueConcat(Zeros(k), s);
    hide ValueOf, Zeros, Pow10;
  }

  lemma {:induction false} ValueInjective(a: string, b: string)
    requires AllDigits(a) && AllDigits(b) && |a| == |b| && ValueOf(a) == ValueOf(b)
    ensures a == b
  {
    if a != "" {
      ValueInjective(a[..|a| - 1], b[..|b| - 1]);
      assert a == a[..|a| - 1] + [a[|a| - 1]] && b == b[..|b| - 1] + [b[|b| - 1]];
    }
  }

  /** Printing what a text of that width denotes gives the text back. */
  lemma PadInverts(s: string)
    requires AllDigits(s) && s != ""
    ensures PadStart(ToText(ValueOf(s)), |s|) == s
  {
    ValueBound(s);
    PadValue(ValueOf(s), |s|);
    ValueInjective(PadStart(ToText(ValueOf(s)), |s|), s);
  }

  // ---------- string order ----------

  /** `a < b` on strings: by code units, a proper prefix first. */
  predicate TextLess(a: string, b: string) {
    if b == "" then false
    else if a == "" then true
    else a[0] < b[0] || (a[0] == b[0] && TextLess(a[1..], b[1..]))
  }

  lemma {:induction false} TextLessConcat(a: string, b: string, c: string, d: string)
    requires |a| == |c|
    ensures TextLess(a + b, c + d) <==> TextLess(a, c) || (a == c && TextLess(b, d))
  {
    if a == "" {
      assert a + b == b && c + d == d;
    } else {
      assert (a + b)[1..] == a[1..] + b && (c + d)[1..] == c[1..] + d;
      TextLessConcat(a[1..], b, c[1..], d);
      assert a[0] == c[0] && a[1..] == c[1..] ==> a == [a[0]] + a[1..] == [c[0]] + c[1..] == c;
    }
  }

  lemma LeadingDigit(s: string)
    requires AllDigits(s) && s != ""
    ensures ValueOf(s) == DigitValue(s[0]) * Pow10(|s| - 1) + ValueOf(s[1..])
    ensures ValueOf(s[1..]) < Pow10(|s| - 1)
  {
    SingleDigit(s[0]);
    hide ValueOf, Pow10;
    assert s == [s[0]] + s[1..];
    ValueConcat([s[0]], s[1..]);
    ValueBound(s[1..]);
  }

  lemma SingleDigit(c: char)
    requires IsDigit(c)
    ensures ValueOf([c]) == DigitValue(c)
  {
    assert [c][..0] == "";
  }

  lemma LeadingDecides(d: nat, e: nat, p: nat, x: nat, y: nat)
    requires x < p && y < p && d < e
    ensures d * p + x < e * p + y
  {
    assert (e - d - 1) * p >= 0;
    assert (e - d - 1) * p == e * p - d * p - p;
  }

  /** On digit texts of one width, string order is numeric order. */
  lemma {:induction false} TextOrderIsValueOrder(a: string, b: string)
    requires AllDigits(a) && AllDigits(b) && |a| == |b|
    ensures TextLess(a, b) <==> ValueOf(a) < ValueOf(b)
  {
    if a != "" {
      TextOrderIsValueOrder(a[1..], b[1..]);
      LeadingDigit(a);
      LeadingDigit(b);
      hide ValueOf, Pow10;
      var d, e, p := DigitValue(a[0]), DigitValue(b[0]), Pow10(|a| - 1);
      if d < e {
        LeadingDecides(d, e, p, ValueOf(a[1..]), ValueOf(b[1..]));
      } else if e < d {
        LeadingDecides(e, d, p, ValueOf(b[1..]), ValueOf(a[1..]));
      }
    }
  }

  lemma Pow10Values()
    ensures Pow10(9) == 1_000_000_000 && Pow10(10) == 10_000_000_000
    ensures Pow10(19) == 10_000_000_000_000_000_000
  {
  }
}
