/** The day schedule of the day view (`slots`): the day's appointments,
    sorted by start time, interleaved with the free gaps of the work day.
    Times are minutes since midnight, the value `toMin(t5(...))` gives the
    "HH:MM:SS" times of the database (see `TimeText.ToMinOfHhMm`). */
module DaySchedule {

  import opened Optional
  import opened Sorting
  import opened Lists
  import opened Records

  /** The joined `services(name, category, color)` row of an appointment. */
  datatype ServiceRef = ServiceRef(name: Option<string>, category: Option<string>, color: Option<string>)

  /** An appointment of the day as the page holds it. */
  datatype Appointment = Appointment(
    id: string,
    start: int,
    end: int,
    status: Status,
    category: Option<string>,
    service: Option<ServiceRef>)

  /** One entry of `slots`: `{type: "gap", from, to}` or `{type: "appt", data}`. */
  datatype Segment = Gap(from: int, to: int) | Booked(appt: Appointment)

  function Start(g: Segment): int {
    match g
    case Gap(from, _) => from
    case Booked(a) => a.start
  }

  function End(g: Segment): int {
    match g
    case Gap(_, to) => to
    case Booked(a) => a.end
  }

  /** `byStart`: the sign of the comparison of the start times. */
  function ByStart(a: Appointment, b: Appointment): (r: int)
    ensures r < 0 <==> a.start < b.start
    ensures r > 0 <==> a.start > b.start
  {
    if a.start < b.start then -1 else if a.start > b.start then 1 else 0
  }

  predicate StartLe(a: Appointment, b: Appointment) {
    ByStart(a, b) <= 0
  }

  lemma StartLeTotal()
    ensures Total(StartLe)
  {
  }

  /** `[...items].sort(byStart)` */
  function SortedByStart(items: seq<Appointment>): seq<Appointment> {
    SortBy(items, StartLe)
  }

  /** `byStart` has no tie-break: appointments with the same start come out
      of the sort in the order they were loaded. */
  lemma SameStartKeepsOrder(items: seq<Appointment>, t: int)
    ensures Filter(SortedByStart(items), (a: Appointment) => a.start == t) == Filter(items, (a: Appointment) => a.start == t)
  {
    SortByStable(items, StartLe, (a: Appointment) => a.start == t);
  }

  /** The gap `[cur, next)` if the cursor is strictly before `next`, else nothing. */
  function Lead(cur: int, next: int): seq<Segment> {
    if cur < next then [Gap(cur, next)] else []
  }

  /** The segments from cursor `cur` on, over the remaining sorted
      appointments `rest`, up to the end of the work day `we`: a gap before
      each appointment when the cursor is strictly before its start, the
      appointment itself, the cursor moved to its end, and a last gap when
      the cursor is strictly before `we`. */
  function Walk(cur: int, rest: seq<Appointment>, we: int): seq<Segment>
    decreases |rest|
  {
    if rest == [] then Lead(cur, we)
    else Lead(cur, rest[0].start) + [Booked(rest[0])] + Walk(rest[0].end, rest[1..], we)
  }

  /** What `slots` computes for the items and the work day `[ws, we)`. */
  function DaySegments(items: seq<Appointment>, ws: int, we: int): seq<Segment> {
    Walk(ws, SortedByStart(items), we)
  }

  /** What is left to emit once the gap before `rest[0]` is emitted. */
  function AfterLead(cur: int, rest: seq<Appointment>, we: int): seq<Segment> {
    if rest == [] then Lead(cur, we)
    else [Booked(rest[0])] + Walk(rest[0].end, rest[1..], we)
  }

  /** The gap the loop emits after `srt[i]`, before `srt[i + 1]`. */
  function GapAfter(srt: seq<Appointment>, i: nat): seq<Segment>
    requires i < |srt|
  {
    if i + 1 < |srt| then Lead(srt[i].end, srt[i + 1].start) else []
  }

  /** One turn of the loop: emit `srt[i]`, then the gap before `srt[i + 1]`. */
  lemma AfterLeadStep(cur: int, srt: seq<Appointment>, i: nat, we: int)
    requires i < |srt|
    ensures AfterLead(cur, srt[i..], we)
         == [Booked(srt[i])] + GapAfter(srt, i) + AfterLead(srt[i].end, srt[i + 1..], we)
  {
    assert srt[i..][1..] == srt[i + 1..];
    if i + 1 < |srt| {
      assert srt[i + 1..][0] == srt[i + 1];
    }
  }

  /** The `slots` memo: sort the day's appointments by start time, then
      walk them with a cursor. */
  method Slots(items: seq<Appointment>, workStart: int, workEnd: int) returns (res: seq<Segment>)
    ensures res == DaySegments(items, workStart, workEnd)
    ensures items == [] ==> res == if workStart < workEnd then [Gap(workStart, workEnd)] else []
  {
    var srt := SortedByStart(items);
    assert items == [] ==> srt == [];
    res := WalkSorted(srt, workStart, workEnd);
  }

  /** One turn of the loop keeps "emitted so far, then what is left to
      emit" equal to the whole walk. */
  lemma LoopStep(target: seq<Segment>, before: seq<Segment>, after: seq<Segment>,
                 cur: int, srt: seq<Appointment>, i: nat, we: int)
    requires i < |srt|
    requires before + AfterLead(cur, srt[i..], we) == target
    requires after == before + [Booked(srt[i])] + GapAfter(srt, i)
    ensures after + AfterLead(srt[i].end, srt[i + 1..], we) == target
  {
    var t := AfterLead(srt[i].end, srt[i + 1..], we);
    var u := [Booked(srt[i])] + GapAfter(srt, i);
    AfterLeadStep(cur, srt, i, we);
    Assoc(before, [Booked(srt[i])], GapAfter(srt, i));
    Assoc(before, u, t);
  }

  lemma Assoc<T>(a: seq<T>, b: seq<T>, c: seq<T>)
    ensures a + b + c == a + (b + c)
  {
  }

  /** The loop of `slots` over the sorted appointments, with its cursor `cur`. */
  method WalkSorted(srt: seq<Appointment>, workStart: int, workEnd: int) returns (res: seq<Segment>)
    ensures res == Walk(workStart, srt, workEnd)
  {
    ghost var target := Walk(workStart, srt, workEnd);
    res := [];
    var cur := workStart;
    if |srt| == 0 {
      if cur < workEnd {
        res := res + [Gap(cur, workEnd)];
      }
      return;
    }
    var firstStart := srt[0].start;
    if cur < firstStart {
      res := res + [Gap(cur, firstStart)];
    }
    assert srt[0..] == srt;
    var i := 0;
    while i < |srt|
      invariant 0 <= i <= |srt|
      invariant res + AfterLead(cur, srt[i..], workEnd) == target
    {
      var a := srt[i];
      ghost var before := res;
      ghost var prev := cur;
      res := res + [Booked(a)];
      cur := a.end;
      if i + 1 < |srt| {
        var nextStart := srt[i + 1].start;
        if cur < nextStart {
          res := res + [Gap(cur, nextStart)];
        }
      }
      LoopStep(target, before, res, prev, srt, i, workEnd);
      i := i + 1;
    }
    assert srt[i..] == [];
    if cur < workEnd {
      res := res + [Gap(cur, workEnd)];
    }
  }

  // ---------------------------------------------------------------------
  // Properties of the segments

  /** No zero-length (or inverted) gap is ever emitted. */
  lemma {:induction false} WalkGapsPositive(cur: int, rest: seq<Appointment>, we: int)
    decreases |rest|
    ensures forall k :: 0 <= k < |Walk(cur, rest, we)| && Walk(cur, rest, we)[k].Gap? ==>
      Walk(cur, rest, we)[k].from < Walk(cur, rest, we)[k].to
  {
    if rest != [] {
      WalkGapsPositive(rest[0].end, rest[1..], we);
      var w := Walk(rest[0].end, rest[1..], we);
      var l := Lead(cur, rest[0].start) + [Booked(rest[0])];
      assert Walk(cur, rest, we) == l + w;
      forall k | |l| <= k < |l| + |w| ensures (l + w)[k] == w[k - |l|] { }
    }
  }

  lemma GapsPositive(items: seq<Appointment>, ws: int, we: int)
    ensures forall k :: 0 <= k < |DaySegments(items, ws, we)| && DaySegments(items, ws, we)[k].Gap? ==>
      DaySegments(items, ws, we)[k].from < DaySegments(items, ws, we)[k].to
  {
    WalkGapsPositive(ws, SortedByStart(items), we);
  }

  /** The appointments of a segment list, in order. */
  function Bookings(segs: seq<Segment>): seq<Appointment> {
    if segs == [] then []
    else (if segs[0].Booked? then [segs[0].appt] else []) + Bookings(segs[1..])
  }

  lemma {:induction false} BookingsAppend(a: seq<Segment>, b: seq<Segment>)
    ensures Bookings(a + b) == Bookings(a) + Bookings(b)
  {
    if a != [] {
      assert (a + b)[0] == a[0];
      assert (a + b)[1..] == a[1..] + b;
      BookingsAppend(a[1..], b);
    } else {
      assert a + b == b;
    }
  }

  lemma {:induction false} WalkBookings(cur: int, rest: seq<Appointment>, we: int)
    decreases |rest|
    ensures Bookings(Walk(cur, rest, we)) == rest
  {
    if rest != [] {
      WalkBookings(rest[0].end, rest[1..], we);
      var l := Lead(cur, rest[0].start);
      BookingsAppend(l + [Booked(rest[0])], Walk(rest[0].end, rest[1..], we));
      BookingsAppend(l, [Booked(rest[0])]);
      assert Bookings([Booked(rest[0])]) == [rest[0]];
      assert rest == [rest[0]] + rest[1..];
    }
  }

  /** Every input appointment appears exactly once as a booked segment, and
      the booked segments come in ascending start order. */
  lemma EachAppointmentOnce(items: seq<Appointment>, ws: int, we: int)
    ensures multiset(Bookings(DaySegments(items, ws, we))) == multiset(items)
    ensures Sorted(Bookings(DaySegments(items, ws, we)), StartLe)
  {
    WalkBookings(ws, SortedByStart(items), we);
    StartLeTotal();
    SortBySorted(items, StartLe);
  }

  /** How neighbouring segments meet: a gap always ends where the next
      booking starts (or at the end of the day), a gap after a booking
      begins at its end, and a booking directly followed by another one
      ends no earlier than the next one starts. */
  ghost predicate Linked(r: seq<Segment>, cur: int, we: int) {
    && (forall k :: 0 <= k < |r| - 1 && r[k].Gap? ==> r[k + 1].Booked? && r[k + 1].appt.start == r[k].to)
    && (forall k :: 0 <= k < |r| - 1 && r[k].Booked? && r[k + 1].Gap? ==> r[k + 1].from == r[k].appt.end)
    && (forall k :: 0 <= k < |r| - 1 && r[k].Booked? && r[k + 1].Booked? ==> r[k + 1].appt.start <= r[k].appt.end)
    && (r != [] && r[0].Gap? ==> r[0].from == cur)
    && (r != [] && r[0].Booked? ==> r[0].appt.start <= cur)
    && (r != [] && r[|r| - 1].Gap? ==> r[|r| - 1].to == we)
    && (r != [] && r[|r| - 1].Booked? ==> we <= r[|r| - 1].appt.end)
    && (r == [] ==> we <= cur)
  }

  lemma LinkedCons(cur: int, a: Appointment, w: seq<Segment>, we: int)
    requires Linked(w, a.end, we)
    ensures Linked(Lead(cur, a.start) + [Booked(a)] + w, cur, we)
  {
    var l := Lead(cur, a.start);
    var r := l + [Booked(a)] + w;
    var n := |l|;
    assert r[n] == Booked(a);
    forall k | n < k < |r| ensures r[k] == w[k - n - 1] { }
    if w != [] {
      assert r[n + 1] == w[0];
    }
  }

  lemma {:induction false} WalkLinked(cur: int, rest: seq<Appointment>, we: int)
    decreases |rest|
    ensures Linked(Walk(cur, rest, we), cur, we)
  {
    if rest != [] {
      WalkLinked(rest[0].end, rest[1..], we);
      LinkedCons(cur, rest[0], Walk(rest[0].end, rest[1..], we), we);
    }
  }

  /** A gap separates a booking from the next one exactly when the earlier
      one ends strictly before the later one starts: back-to-back bookings
      are adjacent, and a gap between two bookings is `[x.end, y.start)`. */
  lemma GapBetweenBookings(items: seq<Appointment>, ws: int, we: int)
    ensures var r := DaySegments(items, ws, we);
      forall k :: 0 <= k < |r| - 1 && r[k].Booked? ==>
        (r[k + 1].Booked? ==> !(r[k].appt.end < r[k + 1].appt.start))
        && (r[k + 1].Gap? && k + 2 < |r| ==>
              r[k + 2].Booked? && r[k + 1] == Gap(r[k].appt.end, r[k + 2].appt.start)
              && r[k].appt.end < r[k + 2].appt.start)
  {
    WalkLinked(ws, SortedByStart(items), we);
    GapsPositive(items, ws, we);
  }

  // ---------------------------------------------------------------------
  // Coverage of the work day

  /** Two appointments that share no minute. */
  predicate Disjoint(a: Appointment, b: Appointment) {
    a.end <= b.start || b.end <= a.start
  }

  /** The sorted appointments from cursor `cur` on fit one after another. */
  ghost predicate ChainFrom(cur: int, rest: seq<Appointment>, we: int) {
    && cur <= we
    && (forall i :: 0 <= i < |rest| ==> rest[i].start < rest[i].end <= we)
    && (rest != [] ==> cur <= rest[0].start)
    && (forall i :: 0 < i < |rest| ==> rest[i - 1].end <= rest[i].start)
  }

  /** The segments run from `cur` to `we` without a hole or an overlap, and
      each has positive length. */
  ghost predicate Covers(r: seq<Segment>, cur: int, we: int) {
    && (r == [] <==> cur == we)
    && (r != [] ==> cur < we)
    && (r != [] ==> Start(r[0]) == cur && End(r[|r| - 1]) == we)
    && (forall k :: 0 < k < |r| ==> End(r[k - 1]) == Start(r[k]))
    && (forall k :: 0 <= k < |r| ==> Start(r[k]) < End(r[k]))
  }

  lemma CoversCons(cur: int, a: Appointment, w: seq<Segment>, we: int)
    requires cur <= a.start < a.end
    requires Covers(w, a.end, we)
    ensures Covers(Lead(cur, a.start) + [Booked(a)] + w, cur, we)
  {
    var l := Lead(cur, a.start);
    var r := l + [Booked(a)] + w;
    var n := |l|;
    assert r[n] == Booked(a);
    forall k | n < k < |r| ensures r[k] == w[k - n - 1] { }
    if w != [] {
      assert r[n + 1] == w[0];
      assert r[|r| - 1] == w[|w| - 1];
    }
  }

  lemma {:induction false} WalkCovers(cur: int, rest: seq<Appointment>, we: int)
    requires ChainFrom(cur, rest, we)
    ensures Covers(Walk(cur, rest, we), cur, we)
    decreases |rest|
  {
    if rest != [] {
      var tail := rest[1..];
      assert ChainFrom(rest[0].end, tail, we) by {
        forall i | 0 < i < |tail| ensures tail[i - 1].end <= tail[i].start {
          assert tail[i - 1] == rest[i] && tail[i] == rest[i + 1];
        }
        forall i | 0 <= i < |tail| ensures tail[i].start < tail[i].end <= we {
          assert tail[i] == rest[i + 1];
        }
        if tail != [] {
          assert rest[0].end <= rest[1].start;
        }
      }
      WalkCovers(rest[0].end, tail, we);
      CoversCons(cur, rest[0], Walk(rest[0].end, tail, we), we);
    }
  }

  /** For a day whose appointments lie inside the work day `[ws, we)` and
      do not overlap one another, the segments partition `[ws, we)`
      exactly: they start at `ws`, end at `we`, each begins where the
      previous one ends, and none is empty. */
  lemma Coverage(items: seq<Appointment>, ws: int, we: int)
    requires ws < we
    requires forall i :: 0 <= i < |items| ==> ws <= items[i].start < items[i].end <= we
    requires forall i, j :: 0 <= i < j < |items| ==> Disjoint(items[i], items[j])
    ensures Covers(DaySegments(items, ws, we), ws, we)
    ensures DaySegments(items, ws, we) != []
  {
    var srt := SortedByStart(items);
    assert Symmetric(Disjoint);
    assert Pairwise(items, Disjoint);
    SortByPairwise(items, StartLe, Disjoint);
    StartLeTotal();
    SortBySorted(items, StartLe);
    forall i | 0 <= i < |srt| ensures ws <= srt[i].start < srt[i].end <= we {
      assert srt[i] in multiset(items);
    }
    forall i | 0 < i < |srt| ensures srt[i - 1].end <= srt[i].start {
      assert StartLe(srt[i - 1], srt[i]);
      assert Disjoint(srt[i - 1], srt[i]);
    }
    assert ChainFrom(ws, srt, we);
    WalkCovers(ws, srt, we);
  }
}
