/** Price fields of the forms: text typed by the user (or written back by
    the auto-price effects with `String(price)`), read with `Number(text)`.
    The text is read as an exact decimal; prices kept in rows are whole
    numbers of cents. */
module PriceText {

  import opened Optional
  import opened Strings
  import opened TimeText
  import Lists

  /** What `Number(text)` gives on a price field: NaN, or the value of the
      decimal text. */
  datatype Amount = NotANumber | Exact(value: real)

  function Pow10(n: nat): (p: nat)
    ensures p >= 1
  {
    if n == 0 then 1 else 10 * Pow10(n - 1)
  }

  predicate IsPoint(c: char) {
    c == '.'
  }

  /** The value of the digits after a decimal point. */
  function FractionValue(f: string): (x: real)
    requires AllDigits(f)
    ensures x >= 0.0
  {
    DigitsValue(f) as real / Pow10(|f|) as real
  }

  /** An unsigned decimal literal: digits, optionally a point and more
      digits, with at least one digit in all ("5", "5.", ".5", "5.25"). */
  function UnsignedValue(t: string): (a: Amount)
    ensures a.Exact? ==> a.value >= 0.0
  {
    var k := Lists.Find(t, IsPoint);
    if k < 0 then
      if t != "" && AllDigits(t) then Exact(DigitsValue(t) as real) else NotANumber
    else
      var ip := t[..k];
      var fp := t[k + 1..];
      if AllDigits(ip) && AllDigits(fp) && (ip != "" || fp != "") then
        Exact(DigitsValue(ip) as real + FractionValue(fp))
      else NotANumber
  }

  function Negate(a: Amount): Amount {
    match a
    case NotANumber => NotANumber
    case Exact(x) => Exact(-x)
  }

  /** `Number(text)`: surrounding white space is ignored, the blank text is
      0, an optional sign may precede an unsigned decimal, and anything
      else is NaN. */
  function JsNumber(s: string): Amount {
    var t := Trim(s);
    if t == "" then Exact(0.0)
    else if t[0] == '-' then Negate(UnsignedValue(t[1..]))
    else if t[0] == '+' then UnsignedValue(t[1..])
    else UnsignedValue(t)
  }

  /** `Number(text) < 0`; a comparison with NaN is false. */
  predicate IsNegative(s: string) {
    JsNumber(s).Exact? && JsNumber(s).value < 0.0
  }

  /** `text !== "" && Number(text) < 0`: the check every form makes
      before it writes a price. */
  predicate BadPrice(s: string) {
    s != "" && IsNegative(s)
  }

  /** `text !== "" ? Number(text) : null`, the price a payload carries. */
  function PayloadPrice(s: string): Option<Amount> {
    if s == "" then None else Some(JsNumber(s))
  }

  /** The amount as a whole number of cents, when it is one. */
  function CentsOf(a: Amount): (r: Option<int>)
    ensures r.Some? ==> a.Exact? && r.value as real == a.value * 100.0
  {
    if a.Exact? && (a.value * 100.0).Floor as real == a.value * 100.0 then Some((a.value * 100.0).Floor)
    else None
  }

  /** The digits after the point of `String(m / 100)`, for `m` cents
      below a unit: none, one, or two. */
  function CentsFraction(m: nat): string
    requires m < 100
  {
    if m == 0 then "" else if m % 10 == 0 then "." + Decimal(m / 10) else "." + Pad2(m)
  }

  /** `String(c / 100)`: the text JavaScript writes for `c` cents
      ("35", "35.5", "35.05", "-0.5"). */
  function CentsText(c: int): string {
    var n := if c < 0 then -c else c;
    (if c < 0 then "-" else "") + Decimal(n / 100) + CentsFraction(n % 100)
  }

  lemma NoSpaceDigits(s: string)
    requires AllDigits(s)
    ensures forall i :: 0 <= i < |s| ==> !IsSpace(s[i])
  {
  }

  /** The first point of `d + "." + f`, with `d` all digits, is the one after `d`. */
  lemma PointAfterDigits(d: string, f: string)
    requires AllDigits(d)
    ensures Lists.Find(d + "." + f, IsPoint) == |d|
    ensures Lists.Find(d, IsPoint) < 0
  {
    var t := d + "." + f;
    assert IsPoint(t[|d|]);
  }

  /** A decimal text without a sign reads as its value. */
  lemma UnsignedOfDecimal(i: nat, f: string)
    requires AllDigits(f)
    ensures UnsignedValue(Decimal(i)) == Exact(i as real)
    ensures UnsignedValue(Decimal(i) + "." + f) == Exact(i as real + FractionValue(f))
  {
    var d := Decimal(i);
    DecimalValue(i);
    var t := d + "." + f;
    PointAfterDigits(d, f);
    assert t[..|d|] == d && t[|d| + 1..] == f;
  }

  /** A text without surrounding white space is read sign first. */
  lemma NumberOfUnpadded(t: string)
    requires t != "" && Unpadded(t)
    ensures JsNumber(t) == if t[0] == '-' then Negate(UnsignedValue(t[1..]))
                           else if t[0] == '+' then UnsignedValue(t[1..])
                           else UnsignedValue(t)
  {
    TrimUnpadded(t);
  }

  /** `Number` reads the decimal texts `i` and `i.f` as their values, digits
      after the point included. */
  lemma NumberOfDecimalText(i: nat, f: string)
    requires AllDigits(f)
    ensures JsNumber(Decimal(i)) == Exact(i as real)
    ensures JsNumber(Decimal(i) + "." + f) == Exact(i as real + FractionValue(f))
  {
    var d := Decimal(i);
    UnsignedOfDecimal(i, f);
    NoSpaceDigits(d);
    assert IsDigit(d[0]);
    NumberOfUnpadded(d);
    var t := d + "." + f;
    assert t[0] == d[0];
    assert !IsSpace(t[|t| - 1]);
    NumberOfUnpadded(t);
  }

  /** The same with a leading minus: `-i` and `-i.f`. */
  lemma NumberOfMinusDecimalText(i: nat, f: string)
    requires AllDigits(f)
    ensures JsNumber("-" + Decimal(i)) == Exact(-(i as real))
    ensures JsNumber("-" + Decimal(i) + "." + f) == Exact(-(i as real + FractionValue(f)))
  {
    MinusWhole(i);
    MinusFraction(i, f);
  }

  lemma MinusWhole(i: nat)
    ensures JsNumber("-" + Decimal(i)) == Exact(-(i as real))
  {
    var d := Decimal(i);
    assert JsNumber(d) == Exact(i as real) by { NumberOfDecimalText(i, ""); }
    NoSpaceDigits(d);
    assert IsDigit(d[0]);
    MinusOf(d);
  }

  lemma MinusFraction(i: nat, f: string)
    requires AllDigits(f)
    ensures JsNumber("-" + Decimal(i) + "." + f) == Exact(-(i as real + FractionValue(f)))
  {
    var d := Decimal(i);
    var t := d + "." + f;
    assert JsNumber(t) == Exact(i as real + FractionValue(f)) by { NumberOfDecimalText(i, f); }
    NoSpaceDigits(d);
    assert t[0] == d[0] && IsDigit(t[0]) && !IsSpace(t[|t| - 1]);
    MinusOf(t);
    assert "-" + d + "." + f == "-" + t;
  }

  /** The written fraction is the cents' share of a unit. */
  lemma CentsFractionValue(m: nat)
    requires 0 < m < 100
    ensures CentsFraction(m) == "." + CentsFraction(m)[1..]
    ensures AllDigits(CentsFraction(m)[1..])
    ensures FractionValue(CentsFraction(m)[1..]) == m as real / 100.0
  {
    var g := CentsFraction(m)[1..];
    if m % 10 == 0 {
      assert g == Decimal(m / 10);
      DecimalValue(m / 10);
      DecimalShort(m / 10);
      assert Pow10(1) == 10;
    } else {
      assert g == Pad2(m);
      Pad2Value(m);
      assert Pow10(2) == 100 by { assert Pow10(1) == 10; }
    }
  }

  /** `n` cents are `n / 100` units and `n % 100` cents. */
  lemma CentsSplit(n: nat)
    ensures n as real / 100.0 == (n / 100) as real + (n % 100) as real / 100.0
  {
    assert n == 100 * (n / 100) + n % 100;
    assert n as real == 100.0 * (n / 100) as real + (n % 100) as real;
  }

  /** The text of `q` units and `m` cents without a sign reads as its value. */
  lemma UnsignedCentsValue(q: nat, m: nat)
    requires m < 100
    ensures JsNumber(Decimal(q) + CentsFraction(m)) == Exact(q as real + m as real / 100.0)
  {
    var d := Decimal(q);
    if m == 0 {
      assert d + CentsFraction(m) == d;
      NumberOfDecimalText(q, "");
    } else {
      CentsFractionValue(m);
      var g := CentsFraction(m)[1..];
      assert d + CentsFraction(m) == d + "." + g;
      NumberOfDecimalText(q, g);
    }
  }

  /** A minus sign before a text that starts with a digit negates its value. */
  lemma MinusOf(t: string)
    requires t != "" && Unpadded(t) && IsDigit(t[0])
    ensures JsNumber("-" + t) == Negate(JsNumber(t))
  {
    var u := "-" + t;
    assert u[1..] == t && u[0] == '-' && u[|u| - 1] == t[|t| - 1];
    assert !IsSpace('-');
    NumberOfUnpadded(u);
    NumberOfUnpadded(t);
  }

  /** The text of `q` units and `m` cents starts with a digit and is unpadded. */
  lemma UnsignedCentsShape(q: nat, m: nat)
    requires m < 100
    ensures var t := Decimal(q) + CentsFraction(m); t != "" && Unpadded(t) && IsDigit(t[0])
  {
    var d := Decimal(q);
    var t := d + CentsFraction(m);
    NoSpaceDigits(d);
    assert t[0] == d[0];
    if m == 0 {
      assert t == d;
    } else {
      CentsFractionValue(m);
      var g := CentsFraction(m)[1..];
      NoSpaceDigits(g);
      assert t == d + "." + g;
      assert t[|t| - 1] == (d + "." + g)[|d + "." + g| - 1];
    }
  }

  lemma NegativeCentsTextValue(c: int)
    requires c < 0
    ensures JsNumber(CentsText(c)) == Exact(c as real / 100.0)
  {
    var n := -c;
    var t := Decimal(n / 100) + CentsFraction(n % 100);
    assert CentsText(c) == "-" + t;
    CentsSplit(n);
    UnsignedCentsValue(n / 100, n % 100);
    UnsignedCentsShape(n / 100, n % 100);
    MinusOf(t);
  }

  /** `String(c / 100)` reads back as `c / 100`. */
  lemma CentsTextValue(c: int)
    ensures JsNumber(CentsText(c)) == Exact(c as real / 100.0)
  {
    if c < 0 {
      NegativeCentsTextValue(c);
    } else {
      var t := Decimal(c / 100) + CentsFraction(c % 100);
      assert CentsText(c) == t;
      CentsSplit(c);
      UnsignedCentsValue(c / 100, c % 100);
    }
  }

  /** `String(c / 100)` has no surrounding white space, so `norm` keeps it. */
  lemma CentsTextUnpadded(c: int)
    ensures CentsText(c) != "" && Trim(CentsText(c)) == CentsText(c)
  {
    var n := if c < 0 then -c else c;
    var t := Decimal(n / 100) + CentsFraction(n % 100);
    UnsignedCentsShape(n / 100, n % 100);
    if c < 0 {
      var u := "-" + t;
      assert CentsText(c) == u;
      assert u[0] == '-' && u[|u| - 1] == t[|t| - 1];
      assert !IsSpace('-');
      TrimUnpadded(u);
    } else {
      assert CentsText(c) == t;
      TrimUnpadded(t);
    }
  }

  /** A price written back with `String(c / 100)` reads back as the same
      amount: the sign check agrees with the sign of `c`, and the amount is
      `c` cents again. The text has no surrounding white space. */
  lemma NumberOfCentsText(c: int)
    ensures JsNumber(CentsText(c)) == Exact(c as real / 100.0)
    ensures IsNegative(CentsText(c)) <==> c < 0
    ensures CentsOf(JsNumber(CentsText(c))) == Some(c)
    ensures CentsText(c) != "" && Trim(CentsText(c)) == CentsText(c)
  {
    CentsTextValue(c);
    CentsTextUnpadded(c);
    var x := c as real / 100.0;
    assert x * 100.0 == c as real;
    assert (x * 100.0).Floor == c;
  }

  /** A negative fractional price is refused: "-2.5" is negative. */
  lemma NegativeFractionRefused()
    ensures BadPrice("-2.5")
  {
    assert Decimal(2) == "2";
    assert Decimal(2) + "." + "5" == "2.5";
    assert DigitsValue("5") == 5 by { assert "5"[..0] == ""; }
    assert Pow10(1) == 10;
    NumberOfDecimalText(2, "5");
    assert Unpadded("2.5");
    MinusOf("2.5");
    assert "-" + "2.5" == "-2.5";
  }

  /** A fractional price is sent as typed: "35.50" becomes 35.5. */
  lemma FractionSent()
    ensures PayloadPrice("35.50") == Some(Exact(35.5))
  {
    assert Decimal(35) == "35" by { assert Decimal(3) == "3"; }
    assert Decimal(35) + "." + "50" == "35.50";
    assert DigitsValue("50") == 50 by {
      assert "50"[..1] == "5";
      assert "5"[..0] == "";
    }
    assert Pow10(2) == 100 by { assert Pow10(1) == 10; }
    NumberOfDecimalText(35, "50");
  }

  /** Only a text whose trimmed form starts with a minus sign is negative. */
  lemma NegativeHasMinus(s: string)
    requires IsNegative(s)
    ensures Trim(s) != [] && Trim(s)[0] == '-'
  {
  }

  /** A blank but non-empty text is the number 0: it passes the
      "not negative" checks and is written as the price 0, not as null. */
  lemma BlankIsZero(s: string)
    requires s != [] && forall i :: 0 <= i < |s| ==> IsSpace(s[i])
    ensures JsNumber(s) == Exact(0.0) && !IsNegative(s)
    ensures PayloadPrice(s) == Some(Exact(0.0))
  {
    TrimBlank(s);
  }
}
