/** The time picker: two selects, hours and minutes, over a value "HH:MM".
    The component reads its `value` with `split(":").map(Number)`, offers
    the options `0..23` and `0, step, 2*step, ...` below 60, and emits
    "HH:MM" built from the chosen option and the other, unchanged, field. */
module TimeField {

  import opened Optional
  import opened TimeText

  /** One destructured element of `value?.split(":").map(Number)`: a
      number, or `undefined` when the split has no such field. */
  datatype Field = Undefined | Number(n: Num)

  function FieldAt(fs: seq<string>, i: nat): Field {
    if i < |fs| then Number(ToNumber(fs[i])) else Undefined
  }

  /** `const [h, m] = value?.split(":").map(Number) ?? [0, 0]` */
  function Parse(value: Option<string>): (r: (Field, Field))
    ensures value.None? ==> r == (Number(Int(0)), Number(Int(0)))
    ensures value.Some? ==> r.0 != Undefined
  {
    match value
    case None => (Number(Int(0)), Number(Int(0)))
    case Some(v) => var fs := Split(v); (FieldAt(fs, 0), FieldAt(fs, 1))
  }

  /** A value the picker wrote is read back as its two numbers. */
  lemma ParseHhMm(h: nat, m: nat)
    ensures Parse(Some(HhMm(h, m))) == (Number(Int(h)), Number(Int(m)))
  {
    Pad2Value(h);
    Pad2Value(m);
    SplitNoColon(Pad2(m));
    SplitAtColon(Pad2(h), Pad2(m));
  }

  /** `String(x)` of a destructured field. */
  function Str(f: Field): string {
    match f
    case Undefined => "undefined"
    case Number(NaN) => "NaN"
    case Number(Int(n)) => IntString(n)
  }

  /** `String(x).padStart(2, "0")`, what a select shows for a field. */
  function Shown(f: Field): string {
    PadStart2(Str(f))
  }

  /** `Array.from({length: 24}, (_, i) => i)` */
  function Hours(): seq<nat> {
    seq(24, i => i)
  }

  /** The hour options are exactly 0 to 23, each once, in order. */
  lemma HoursAreADay()
    ensures |Hours()| == 24
    ensures forall x :: x in Hours() <==> 0 <= x < 24
    ensures forall i, j :: 0 <= i < j < |Hours()| ==> Hours()[i] < Hours()[j]
  {
    forall i | 0 <= i < 24 ensures Hours()[i] == i {
    }
    forall x: nat | x < 24 ensures x in Hours() {
      assert Hours()[x] == x;
    }
    forall x | x in Hours() ensures x < 24 {
      var i :| 0 <= i < 24 && Hours()[i] == x;
    }
  }

  /** `Math.ceil(60 / step)` */
  function CeilDiv60(step: nat): nat
    requires step >= 1
  {
    (60 + step - 1) / step
  }

  /** `Array.from({length: Math.ceil(60 / step)}, (_, k) => k * step)` */
  function Minutes(step: nat): seq<nat>
    requires step >= 1
  {
    seq(CeilDiv60(step), k => k * step)
  }

  /** `ceil(60 / step)` steps reach 60, one fewer does not. */
  lemma CeilDiv60Bounds(step: nat)
    requires step >= 1
    ensures CeilDiv60(step) >= 1
    ensures CeilDiv60(step) * step >= 60
    ensures (CeilDiv60(step) - 1) * step < 60
  {
    var n := CeilDiv60(step);
    var rem := (60 + step - 1) % step;
    assert 60 + step - 1 == n * step + rem && 0 <= rem < step;
    assert (n - 1) * step == n * step - step;
  }

  lemma MulStrict(i: nat, j: nat, step: nat)
    requires i < j && step >= 1
    ensures i * step < j * step
  {
    assert j * step == i * step + (j - i) * step;
  }

  /** The minute options are `0, step, 2 * step, ...`, all below 60, in
      increasing order, and there are `ceil(60 / step)` of them, so every
      multiple of `step` below 60 is offered. */
  lemma MinutesFacts(step: nat)
    requires step >= 1
    ensures |Minutes(step)| >= 1 && Minutes(step)[0] == 0
    ensures forall k :: 0 <= k < |Minutes(step)| ==> Minutes(step)[k] == k * step && Minutes(step)[k] < 60
    ensures (|Minutes(step)| - 1) * step < 60 <= |Minutes(step)| * step
    ensures forall i, j :: 0 <= i < j < |Minutes(step)| ==> Minutes(step)[i] < Minutes(step)[j]
  {
    var n := CeilDiv60(step);
    CeilDiv60Bounds(step);
    forall k | 0 <= k < n ensures k * step < 60 {
      if k < n - 1 { MulStrict(k, n - 1, step); }
    }
    forall i, j | 0 <= i < j < n ensures i * step < j * step {
      MulStrict(i, j, step);
    }
  }

  /** The hour select's `onChange`: the chosen hour option, then the
      current minute as shown. */
  function OnHourChange(value: Option<string>, hour: nat): string {
    Pad2(hour) + ":" + Shown(Parse(value).1)
  }

  /** The minute select's `onChange`: the current hour as shown, then the
      chosen minute option. */
  function OnMinuteChange(value: Option<string>, minute: nat): string {
    Shown(Parse(value).0) + ":" + Pad2(minute)
  }

  lemma ShownNumber(n: nat)
    ensures Shown(Number(Int(n))) == Pad2(n)
  {
  }

  /** Changing the hour keeps the minute of a picker-written value (or 0
      when there is no value), and the result is again "HH:MM": two
      zero-padded fields that `toMin` reads as `hour * 60 + m`. */
  lemma HourChangeKeepsMinute(h: nat, m: nat, hour: nat)
    requires hour < 24 && m < 60
    ensures OnHourChange(Some(HhMm(h, m)), hour) == HhMm(hour, m)
    ensures OnHourChange(None, hour) == HhMm(hour, 0)
    ensures |HhMm(hour, m)| == 5 && HhMm(hour, m)[2] == ':'
    ensures ToMin(OnHourChange(Some(HhMm(h, m)), hour)) == Int(hour * 60 + m)
  {
    ParseHhMm(h, m);
    ShownNumber(m);
    ShownNumber(0);
    Pad2Value(hour);
    Pad2Value(m);
    ToMinOfHhMm(hour, m, 0);
  }

  /** Changing the minute keeps the hour, symmetrically. */
  lemma MinuteChangeKeepsHour(h: nat, m: nat, minute: nat)
    requires h < 24 && minute < 60
    ensures OnMinuteChange(Some(HhMm(h, m)), minute) == HhMm(h, minute)
    ensures OnMinuteChange(None, minute) == HhMm(0, minute)
    ensures |HhMm(h, minute)| == 5 && HhMm(h, minute)[2] == ':'
    ensures ToMin(OnMinuteChange(Some(HhMm(h, m)), minute)) == Int(h * 60 + minute)
  {
    ParseHhMm(h, m);
    ShownNumber(h);
    ShownNumber(0);
    Pad2Value(h);
    Pad2Value(minute);
    ToMinOfHhMm(h, minute, 0);
  }

  /** An empty (not absent) value has no minute field: the hour select then
      emits the text of `undefined` as the minute. */
  lemma EmptyValueMinute(hour: nat)
    ensures Parse(Some("")) == (Number(Int(0)), Undefined)
    ensures OnHourChange(Some(""), hour) == Pad2(hour) + ":undefined"
  {
  }
}
