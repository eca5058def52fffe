/** Time-of-day text as the pages handle it: the "HH:MM" strings the time
    picker emits, the "HH:MM:SS" strings the database returns, and the
    JavaScript steps (`split(":")`, `map(Number)`, `slice(0, 5)`,
    `padStart(2, "0")`) the helpers apply to them. */
module TimeText {

  import opened Optional

  /** What `Number(field)` gives for one field of a time string. Fields
      are read as plain decimal digits; the empty field is 0, as in
      JavaScript; anything else is NaN. */
  datatype Num = NaN | Int(v: int)

  predicate IsDigit(c: char) { '0' <= c <= '9' }

  predicate AllDigits(s: string) {
    forall i :: 0 <= i < |s| ==> IsDigit(s[i])
  }

  function DigitsValue(s: string): (n: nat)
    requires AllDigits(s)
  {
    if s == [] then 0
    else DigitsValue(s[..|s| - 1]) * 10 + (s[|s| - 1] as int - '0' as int)
  }

  function ToNumber(s: string): Num {
    if AllDigits(s) then Int(DigitsValue(s)) else NaN
  }

  /** `s.split(":")`: the fields between colons, in order; never empty. */
  function Split(s: string): (r: seq<string>)
    ensures |r| >= 1
  {
    if s == [] then [""]
    else
      var rest := Split(s[1..]);
      if s[0] == ':' then [""] + rest
      else [[s[0]] + rest[0]] + rest[1..]
  }

  /** `fields.join(":")`, the inverse of `Split`. */
  function Join(fs: seq<string>): string {
    if fs == [] then ""
    else if |fs| == 1 then fs[0]
    else fs[0] + ":" + Join(fs[1..])
  }

  predicate NoColon(s: string) {
    forall i :: 0 <= i < |s| ==> s[i] != ':'
  }

  /** Splitting loses nothing: joining the fields gives the string back,
      and no field holds a colon. */
  lemma {:induction false} SplitJoin(s: string)
    ensures Join(Split(s)) == s
    ensures forall k :: 0 <= k < |Split(s)| ==> NoColon(Split(s)[k])
  {
    if s != [] {
      SplitJoin(s[1..]);
      var rest := Split(s[1..]);
      if s[0] == ':' {
        assert Join([""] + rest) == "" + ":" + Join(rest);
      } else {
        var r := [[s[0]] + rest[0]] + rest[1..];
        assert r[1..] == rest[1..];
        if |rest| == 1 {
          assert Join(r) == [s[0]] + rest[0];
        } else {
          assert Join(rest) == rest[0] + ":" + Join(rest[1..]);
          assert Join(r) == [s[0]] + rest[0] + ":" + Join(rest[1..]);
        }
        assert s == [s[0]] + s[1..];
        forall k | 0 <= k < |r| ensures NoColon(r[k]) {
          if k > 0 { assert r[k] == rest[k]; }
        }
      }
    }
  }

  lemma {:induction false} SplitNoColon(s: string)
    requires NoColon(s)
    ensures Split(s) == [s]
  {
    if s != [] {
      assert NoColon(s[1..]) by {
        forall i | 0 <= i < |s[1..]| ensures s[1..][i] != ':' { assert s[1..][i] == s[i + 1]; }
      }
      SplitNoColon(s[1..]);
      assert [s[0]] + s[1..] == s;
    }
  }

  lemma {:induction false} SplitAtColon(a: string, b: string)
    requires NoColon(a)
    ensures Split(a + ":" + b) == [a] + Split(b)
  {
    if a == [] {
      assert a + ":" + b == [':'] + b;
      assert ([':'] + b)[1..] == b;
    } else {
      assert (a + ":" + b)[1..] == a[1..] + ":" + b;
      SplitAtColon(a[1..], b);
      assert [a[0]] + a[1..] == a;
    }
  }

  /** One character in front of a text: a colon opens a new field, any
      other character joins the first field. */
  lemma SplitCons(c: char, t: string)
    ensures Split([c] + t) == if c == ':' then [""] + Split(t) else [[c] + Split(t)[0]] + Split(t)[1..]
  {
    assert ([c] + t)[0] == c && ([c] + t)[1..] == t;
  }

  lemma FieldsAppend(c: char, st: seq<string>, sb: seq<string>)
    requires |st| >= 1
    ensures [[c] + (st + sb)[0]] + (st + sb)[1..] == ([[c] + st[0]] + st[1..]) + sb
  {
    assert (st + sb)[0] == st[0];
    assert (st + sb)[1..] == st[1..] + sb;
  }

  /** The step of `SplitConcat`: one more character in front of `t`. */
  lemma SplitConcatStep(c: char, t: string, b: string)
    requires Split(t + ":" + b) == Split(t) + Split(b)
    ensures Split([c] + t + ":" + b) == Split([c] + t) + Split(b)
  {
    var x := t + ":" + b;
    assert [c] + t + ":" + b == [c] + x;
    SplitCons(c, x);
    SplitCons(c, t);
    if c != ':' {
      FieldsAppend(c, Split(t), Split(b));
    } else {
      assert [""] + (Split(t) + Split(b)) == ([""] + Split(t)) + Split(b);
    }
  }

  /** A colon between two texts separates their fields. */
  lemma {:induction false} SplitConcat(a: string, b: string)
    ensures Split(a + ":" + b) == Split(a) + Split(b)
  {
    if a == [] {
      assert a + ":" + b == [':'] + b;
      SplitCons(':', b);
    } else {
      SplitConcat(a[1..], b);
      SplitConcatStep(a[0], a[1..], b);
      assert a == [a[0]] + a[1..];
    }
  }

  /** `t5`: the first five characters ("HH:MM" of "HH:MM:SS"). */
  function T5(s: string): (r: string)
    ensures |r| == if |s| < 5 then |s| else 5
    ensures r <= s
  {
    if |s| < 5 then s else s[..5]
  }

  /** The minute field as `(m || 0)` reads it: absent, empty or NaN is 0. */
  function MinuteOrZero(fs: seq<string>): int {
    if |fs| < 2 then 0
    else match ToNumber(fs[1])
      case Int(v) => v
      case NaN => 0
  }

  /** DayView's `toMin`: `h * 60 + (m || 0)` of `String(t || "0:0")`;
      seconds are ignored and a NaN hour makes the whole result NaN. */
  function ToMin(t: string): Num {
    var fs := Split(if t == "" then "0:0" else t);
    match ToNumber(fs[0])
    case NaN => NaN
    case Int(h) => Int(h * 60 + MinuteOrZero(fs))
  }

  /** Appending the seconds ":00", as the pages do before they write a
      time, does not change what `toMin` reads. */
  lemma ToMinWithSeconds(t: string)
    ensures ToMin(t + ":00") == ToMin(t)
  {
    SplitConcat(t, "00");
    SplitNoColon("00");
    assert t + ":00" == t + ":" + "00";
    if t == "" {
      assert t + ":00" == ":" + "00";
      SplitConcat("", "00");
      SplitConcat("0", "0");
      SplitNoColon("0");
      assert "0:0" == "0" + ":" + "0";
    } else {
      var fs := Split(t);
      var gs := Split(t + ":00");
      assert gs == fs + ["00"];
      assert gs[0] == fs[0];
      assert AllDigits("00") && DigitsValue("00") == 0;
      if |fs| >= 2 {
        assert gs[1] == fs[1];
      } else {
        assert gs[1] == "00";
      }
      assert MinuteOrZero(gs) == MinuteOrZero(fs);
    }
  }

  /** DayView's `lt`: a comparison with NaN is false. */
  predicate Lt(a: string, b: string) {
    ToMin(a).Int? && ToMin(b).Int? && ToMin(a).v < ToMin(b).v
  }

  /** DayView's `diffMin`: `toMin(b) - toMin(a)`, NaN if either is. */
  function DiffMin(a: string, b: string): (r: Num)
    ensures r.Int? <==> ToMin(a).Int? && ToMin(b).Int?
    ensures r.Int? ==> r.v + ToMin(a).v == ToMin(b).v
  {
    if ToMin(a).Int? && ToMin(b).Int? then Int(ToMin(b).v - ToMin(a).v) else NaN
  }

  /** Booking's `toSec`: `h * 3600 + m * 60`; the empty string is 0, and a
      missing or NaN field makes the result NaN (there is no `|| 0`). */
  function ToSec(t: string): Num {
    if t == "" then Int(0)
    else
      var fs := Split(t);
      if |fs| < 2 then NaN
      else match (ToNumber(fs[0]), ToNumber(fs[1]))
        case (Int(h), Int(m)) => Int(h * 3600 + m * 60)
        case _ => NaN
  }

  /** Stats' `diffMinutes`: 0 when either bound is missing or empty,
      otherwise `max(0, end - start)` in minutes of the "HH:MM" prefix;
      NaN fields give NaN (`Math.max(0, NaN)` is NaN). */
  function DiffMinutes(a: Option<string>, b: Option<string>): (r: Num)
    ensures (a.None? || b.None? || a == Some("") || b == Some("")) ==> r == Int(0)
    ensures r.Int? ==> r.v >= 0
  {
    if a.None? || b.None? || a.value == "" || b.value == "" then Int(0)
    else
      var fa := Split(T5(a.value));
      var fb := Split(T5(b.value));
      if |fa| < 2 || |fb| < 2 then NaN
      else match (ToNumber(fa[0]), ToNumber(fa[1]), ToNumber(fb[0]), ToNumber(fb[1]))
        case (Int(ah), Int(am), Int(bh), Int(bm)) =>
          var d := (bh * 60 + bm) - (ah * 60 + am);
          Int(if d > 0 then d else 0)
        case _ => NaN
  }

  // ---------------------------------------------------------------------
  // Formatting: `String(n).padStart(2, "0")`

  function DigitChar(d: nat): (c: char)
    requires d < 10
    ensures IsDigit(c) && c as int - '0' as int == d
  {
    (d + '0' as int) as char
  }

  /** `String(n)` for a non-negative integer. */
  function Decimal(n: nat): (s: string)
    ensures AllDigits(s) && |s| >= 1
  {
    if n < 10 then [DigitChar(n)] else Decimal(n / 10) + [DigitChar(n % 10)]
  }

  /** `String(n)` for any integer. */
  function IntString(n: int): string {
    if n >= 0 then Decimal(n) else "-" + Decimal(-n)
  }

  function PadStart2(s: string): string {
    if |s| >= 2 then s else if |s| == 1 then "0" + s else "00"
  }

  function Pad2(n: nat): (s: string)
    ensures AllDigits(s) && NoColon(s)
  {
    PadStart2(Decimal(n))
  }

  /** The "HH:MM" string the time picker emits. */
  function HhMm(h: nat, m: nat): string {
    Pad2(h) + ":" + Pad2(m)
  }

  /** The "HH:MM:SS" string the pages send to the database. */
  function HhMmSs(h: nat, m: nat, s: nat): string {
    HhMm(h, m) + ":" + Pad2(s)
  }

  lemma {:induction false} DecimalValue(n: nat)
    ensures DigitsValue(Decimal(n)) == n
  {
    if n >= 10 {
      DecimalValue(n / 10);
      var s := Decimal(n);
      assert s[..|s| - 1] == Decimal(n / 10);
    }
  }

  lemma {:induction false} DecimalShort(n: nat)
    requires n < 100
    ensures |Decimal(n)| == if n < 10 then 1 else 2
  {
    if n >= 10 { assert n / 10 < 10; }
  }

  lemma {:induction false} LeadingZero(s: string)
    requires AllDigits(s)
    ensures AllDigits("0" + s) && DigitsValue("0" + s) == DigitsValue(s)
  {
    var z := "0" + s;
    assert AllDigits(z) by {
      forall i | 0 <= i < |z| ensures IsDigit(z[i]) {
        if i > 0 { assert z[i] == s[i - 1]; }
      }
    }
    if s != [] {
      assert z[..|z| - 1] == "0" + s[..|s| - 1];
      LeadingZero(s[..|s| - 1]);
    }
  }

  /** Zero padding does not change the value read back. */
  lemma Pad2Value(n: nat)
    ensures ToNumber(Pad2(n)) == Int(n)
    ensures n < 100 ==> |Pad2(n)| == 2
  {
    DecimalValue(n);
    if |Decimal(n)| == 1 { LeadingZero(Decimal(n)); }
    if n < 100 { DecimalShort(n); }
  }

  /** `toMin` reads back what the picker wrote: "HH:MM" and "HH:MM:SS" give
      `h * 60 + m`, the seconds being ignored. */
  lemma ToMinOfHhMm(h: nat, m: nat, s: nat)
    ensures ToMin(HhMm(h, m)) == Int(h * 60 + m)
    ensures ToMin(HhMmSs(h, m, s)) == Int(h * 60 + m)
  {
    Pad2Value(h);
    Pad2Value(m);
    SplitNoColon(Pad2(m));
    SplitAtColon(Pad2(h), Pad2(m));
    assert HhMmSs(h, m, s) == Pad2(h) + ":" + (Pad2(m) + ":" + Pad2(s));
    SplitAtColon(Pad2(m), Pad2(s));
    SplitNoColon(Pad2(s));
    SplitAtColon(Pad2(h), Pad2(m) + ":" + Pad2(s));
  }

  /** A missing minute field counts as 0: "H" reads as `h * 60`. */
  lemma ToMinHourOnly(h: nat)
    ensures ToMin(Decimal(h)) == Int(h * 60)
  {
    DecimalValue(h);
    SplitNoColon(Decimal(h));
  }

  /** `t5` of a database time is the picker's "HH:MM" string. */
  lemma T5OfHhMmSs(h: nat, m: nat, s: nat)
    requires h < 100 && m < 100
    ensures T5(HhMmSs(h, m, s)) == HhMm(h, m)
  {
    Pad2Value(h);
    Pad2Value(m);
  }

  /** `toSec` reads "HH:MM" as `h * 3600 + m * 60` and the empty string as 0. */
  lemma ToSecOfHhMm(h: nat, m: nat)
    ensures ToSec(HhMm(h, m)) == Int(h * 3600 + m * 60)
    ensures ToSec("") == Int(0)
  {
    Pad2Value(h);
    Pad2Value(m);
    SplitNoColon(Pad2(m));
    SplitAtColon(Pad2(h), Pad2(m));
  }

  /** `diffMinutes` over two database times is the non-negative minute
      difference of their "HH:MM" prefixes. */
  lemma DiffMinutesOfHhMmSs(h1: nat, m1: nat, s1: nat, h2: nat, m2: nat, s2: nat)
    requires h1 < 100 && m1 < 100 && h2 < 100 && m2 < 100
    ensures var d := (h2 * 60 + m2) - (h1 * 60 + m1);
      DiffMinutes(Some(HhMmSs(h1, m1, s1)), Some(HhMmSs(h2, m2, s2))) == Int(if d > 0 then d else 0)
  {
    T5OfHhMmSs(h1, m1, s1);
    T5OfHhMmSs(h2, m2, s2);
    Pad2Value(h1); Pad2Value(m1); Pad2Value(h2); Pad2Value(m2);
    SplitNoColon(Pad2(m1));
    SplitAtColon(Pad2(h1), Pad2(m1));
    SplitNoColon(Pad2(m2));
    SplitAtColon(Pad2(h2), Pad2(m2));
    assert HhMmSs(h1, m1, s1) != "";
    assert HhMmSs(h2, m2, s2) != "";
  }

  // ---------------------------------------------------------------------
  // Text order: `byStart` compares the "HH:MM:SS" strings themselves

  /** JavaScript's `<` on strings: character codes compared from the left,
      a proper prefix before the longer string. */
  predicate TextLess(a: string, b: string)
    decreases |a|
  {
    if a == [] then b != []
    else if b == [] then false
    else if a[0] != b[0] then a[0] < b[0]
    else TextLess(a[1..], b[1..])
  }

  lemma {:induction false} TextLessConcat(a1: string, a2: string, b1: string, b2: string)
    requires |a1| == |b1|
    ensures TextLess(a1 + a2, b1 + b2) <==> TextLess(a1, b1) || (a1 == b1 && TextLess(a2, b2))
    decreases |a1|
  {
    if a1 == [] {
      assert a1 + a2 == a2 && b1 + b2 == b2;
    } else {
      assert (a1 + a2)[0] == a1[0] && (b1 + b2)[0] == b1[0];
      assert (a1 + a2)[1..] == a1[1..] + a2 && (b1 + b2)[1..] == b1[1..] + b2;
      TextLessConcat(a1[1..], a2, b1[1..], b2);
      if a1[0] == b1[0] {
        assert a1 == b1 <==> a1[1..] == b1[1..] by {
          assert a1 == [a1[0]] + a1[1..] && b1 == [b1[0]] + b1[1..];
        }
      }
    }
  }

  lemma Pad2Digits(n: nat)
    requires n < 100
    ensures Pad2(n) == [DigitChar(n / 10), DigitChar(n % 10)]
  {
    if n >= 10 {
      assert Decimal(n / 10) == [DigitChar(n / 10)];
    }
  }

  /** Two zero-padded numbers below 100 compare as text as they compare as numbers. */
  lemma Pad2Order(n1: nat, n2: nat)
    requires n1 < 100 && n2 < 100
    ensures TextLess(Pad2(n1), Pad2(n2)) <==> n1 < n2
  {
    Pad2Digits(n1);
    Pad2Digits(n2);
    var p1 := Pad2(n1);
    var p2 := Pad2(n2);
    var t1, u1, t2, u2 := n1 / 10, n1 % 10, n2 / 10, n2 % 10;
    assert n1 == 10 * t1 + u1 && n2 == 10 * t2 + u2;
    assert p1 == [DigitChar(t1)] + [DigitChar(u1)] && p2 == [DigitChar(t2)] + [DigitChar(u2)];
    TextLessConcat([DigitChar(t1)], [DigitChar(u1)], [DigitChar(t2)], [DigitChar(u2)]);
    assert TextLess([DigitChar(t1)], [DigitChar(t2)]) <==> t1 < t2 by {
      assert [DigitChar(t1)][1..] == [] && [DigitChar(t2)][1..] == [];
    }
    assert TextLess([DigitChar(u1)], [DigitChar(u2)]) <==> u1 < u2 by {
      assert [DigitChar(u1)][1..] == [] && [DigitChar(u2)][1..] == [];
    }
  }

  /** `byStart` orders the database times "HH:MM:SS" as the times they
      denote: by hour, then minute, then second. */
  lemma HhMmSsOrder(h1: nat, m1: nat, s1: nat, h2: nat, m2: nat, s2: nat)
    requires h1 < 100 && m1 < 100 && s1 < 100 && h2 < 100 && m2 < 100 && s2 < 100
    ensures TextLess(HhMmSs(h1, m1, s1), HhMmSs(h2, m2, s2)) <==>
      h1 < h2 || (h1 == h2 && (m1 < m2 || (m1 == m2 && s1 < s2)))
  {
    Pad2Value(h1); Pad2Value(m1); Pad2Value(s1);
    Pad2Value(h2); Pad2Value(m2); Pad2Value(s2);
    Pad2Order(h1, h2); Pad2Order(m1, m2); Pad2Order(s1, s2);
    var t1 := ":" + Pad2(s1);
    var t2 := ":" + Pad2(s2);
    TextLessConcat(":", Pad2(s1), ":", Pad2(s2));
    var u1 := ":" + Pad2(m1) + t1;
    var u2 := ":" + Pad2(m2) + t2;
    TextLessConcat(Pad2(m1), t1, Pad2(m2), t2);
    assert u1 == ":" + (Pad2(m1) + t1) && u2 == ":" + (Pad2(m2) + t2);
    TextLessConcat(":", Pad2(m1) + t1, ":", Pad2(m2) + t2);
    assert HhMmSs(h1, m1, s1) == Pad2(h1) + u1;
    assert HhMmSs(h2, m2, s2) == Pad2(h2) + u2;
    TextLessConcat(Pad2(h1), u1, Pad2(h2), u2);
    if h1 != h2 { assert Pad2(h1) != Pad2(h2); }
    if m1 != m2 { assert Pad2(m1) != Pad2(m2); }
  }

  /** For the times the pages write (seconds ":00", minutes below 60), the
      text order is the order of the minute values `toMin` gives. */
  lemma ByStartAgreesWithMinutes(h1: nat, m1: nat, h2: nat, m2: nat)
    requires h1 < 100 && m1 < 60 && h2 < 100 && m2 < 60
    ensures TextLess(HhMmSs(h1, m1, 0), HhMmSs(h2, m2, 0)) <==> h1 * 60 + m1 < h2 * 60 + m2
    ensures ToMin(HhMmSs(h1, m1, 0)) == Int(h1 * 60 + m1)
  {
    HhMmSsOrder(h1, m1, 0, h2, m2, 0);
    ToMinOfHhMm(h1, m1, 0);
  }
}
