/** The overlap guard shared by the day view (`saveEdit`, `saveAdd`) and
    the booking page (`handleCreateAppointment`): before a write, the
    appointments of the same date are filtered by
    `start_time < cand.end AND end_time > cand.start`, and, when editing,
    `id <> self`; the write is refused when any row is left. Intervals are
    half-open `[start, end)` in minutes, so back-to-back bookings pass. */
module OverlapGuard {

  import opened Optional
  import opened Sorting
  import opened DaySchedule
  import Lists

  /** The row filter of the query. */
  predicate Conflicts(x: Appointment, start: int, end: int) {
    x.start < end && x.end > start
  }

  /** `.neq("id", self)`: an edit does not collide with itself. */
  predicate Considered(x: Appointment, exclude: Option<string>) {
    exclude.None? || x.id != exclude.value
  }

  /** The rows the overlap query returns. */
  function OverlapRows(rows: seq<Appointment>, start: int, end: int, exclude: Option<string>): (r: seq<Appointment>)
    ensures forall x :: x in r <==> x in rows && Considered(x, exclude) && Conflicts(x, start, end)
  {
    Lists.Filter(rows, x => Considered(x, exclude) && Conflicts(x, start, end))
  }

  /** `(overlaps || []).length === 0`: the guard lets the write through. */
  predicate Free(rows: seq<Appointment>, start: int, end: int, exclude: Option<string>) {
    |OverlapRows(rows, start, end, exclude)| == 0
  }

  /** The guard passes exactly when no considered row conflicts. */
  lemma FreeIff(rows: seq<Appointment>, start: int, end: int, exclude: Option<string>)
    ensures Free(rows, start, end, exclude) <==>
      forall i :: 0 <= i < |rows| && Considered(rows[i], exclude) ==> !Conflicts(rows[i], start, end)
  {
    var r := OverlapRows(rows, start, end, exclude);
    if !Free(rows, start, end, exclude) {
      assert r[0] in r;
      var i :| 0 <= i < |rows| && rows[i] == r[0];
    }
  }

  /** Minute `t` lies in the half-open interval `[from, to)`. */
  predicate Within(t: int, from: int, to: int) {
    from <= t < to
  }

  /** For non-empty intervals, the filter finds exactly the rows that share
      at least one minute with the candidate. */
  lemma ConflictIffSharedMinute(x: Appointment, start: int, end: int)
    requires x.start < x.end && start < end
    ensures Conflicts(x, start, end) <==> exists t :: Within(t, x.start, x.end) && Within(t, start, end)
  {
    if Conflicts(x, start, end) {
      var t := if x.start < start then start else x.start;
      assert Within(t, x.start, x.end) && Within(t, start, end);
    }
  }

  /** Back-to-back intervals do not conflict, in either order. */
  lemma BackToBack(x: Appointment, end: int)
    ensures !Conflicts(x, x.end, end)
    ensures !Conflicts(x, end, x.start)
  {
  }

  /** Not conflicting with the candidate's interval is being disjoint from it. */
  lemma NoConflictIsDisjoint(x: Appointment, c: Appointment)
    ensures !Conflicts(x, c.start, c.end) <==> Disjoint(x, c)
  {
  }

  /** Adding an appointment the guard accepted (nothing excluded) keeps
      the day free of overlaps. */
  lemma AddKeepsDisjoint(rows: seq<Appointment>, c: Appointment)
    requires Pairwise(rows, Disjoint)
    requires Free(rows, c.start, c.end, None)
    ensures Pairwise(rows + [c], Disjoint)
  {
    FreeIff(rows, c.start, c.end, None);
    var r := rows + [c];
    forall i, j | 0 <= i < j < |r| ensures Disjoint(r[i], r[j]) {
      if j < |rows| {
        assert r[i] == rows[i] && r[j] == rows[j];
      } else {
        assert r[i] == rows[i] && r[j] == c;
        NoConflictIsDisjoint(rows[i], c);
      }
    }
  }

  function IdOf(a: Appointment): string {
    a.id
  }

  ghost predicate UniqueIds(rows: seq<Appointment>) {
    forall i, j :: 0 <= i < j < |rows| ==> rows[i].id != rows[j].id
  }

  /** Replacing the edited appointment after the guard (its own id
      excluded) accepted the new times keeps the day free of overlaps, as
      long as ids are unique. */
  lemma EditKeepsDisjoint(rows: seq<Appointment>, c: Appointment)
    requires UniqueIds(rows) && Pairwise(rows, Disjoint)
    requires Free(rows, c.start, c.end, Some(c.id))
    ensures Pairwise(Lists.UpdateByKey(rows, IdOf, c.id, _ => c), Disjoint)
  {
    FreeIff(rows, c.start, c.end, Some(c.id));
    var r := Lists.UpdateByKey(rows, IdOf, c.id, _ => c);
    forall i, j | 0 <= i < j < |r| ensures Disjoint(r[i], r[j]) {
      if rows[i].id == c.id {
        assert rows[j].id != c.id && r[j] == rows[j];
        NoConflictIsDisjoint(rows[j], c);
      } else if rows[j].id == c.id {
        assert r[i] == rows[i];
        NoConflictIsDisjoint(rows[i], c);
      }
    }
  }
}
