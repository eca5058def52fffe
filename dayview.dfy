/** The day view: the work hours, the add and edit checks of an
    appointment with their overlap guard, the page's list of the day's
    appointments, the city assigned to a week day and the colour an
    appointment is drawn in. */
module DayView {

  import opened Optional
  import opened Strings
  import opened TimeText
  import opened PriceText
  import opened Records
  import opened Sorting
  import opened Lists
  import opened DaySchedule
  import opened OverlapGuard

  const FallbackWorkStart: string := "09:00"
  const FallbackWorkEnd: string := "19:00"
  const DefaultColor: string := "#e5e7eb"

  // ---------------------------------------------------------------------
  // Work hours

  /** `(stored || "").slice(0, 5) || fallback`, for `work_start`/`work_end`. */
  function WorkBound(stored: Option<string>, fallback: string): (r: string)
    ensures r == fallback || (r != "" && |r| <= 5)
  {
    var t := T5(stored.GetOr(""));
    if t == "" then fallback else t
  }

  /** A stored "HH:MM:SS" gives its "HH:MM"; a missing or empty one the fallback. */
  lemma WorkBoundOfDb(h: nat, m: nat, s: nat, fallback: string)
    requires h < 100 && m < 100
    ensures WorkBound(Some(HhMmSs(h, m, s)), fallback) == HhMm(h, m)
    ensures WorkBound(None, fallback) == fallback
    ensures WorkBound(Some(""), fallback) == fallback
  {
    T5OfHhMmSs(h, m, s);
    assert |HhMm(h, m)| >= 1;
  }

  // ---------------------------------------------------------------------
  // Checks before a write

  /** DayView's `validTimeRange`: both ends given and `toMin(start) < toMin(end)`. */
  predicate ValidTimeRange(start: string, end: string) {
    start != "" && end != "" && Lt(start, end)
  }

  /** On picker values the rule is "start strictly before end"; an empty
      end is always rejected, and so is an empty start. */
  lemma ValidTimeRangeOfHhMm(h1: nat, m1: nat, h2: nat, m2: nat)
    ensures ValidTimeRange(HhMm(h1, m1), HhMm(h2, m2)) <==> h1 * 60 + m1 < h2 * 60 + m2
    ensures !ValidTimeRange("", HhMm(h2, m2)) && !ValidTimeRange(HhMm(h1, m1), "")
  {
    ToMinOfHhMm(h1, m1, 0);
    ToMinOfHhMm(h2, m2, 0);
    assert |HhMm(h1, m1)| >= 1 && |HhMm(h2, m2)| >= 1;
  }

  /** Why a save is refused. */
  datatype Reason = NoClient | NoCategory | BadRange | NegativePrice | Overlap

  datatype Check = Pass | Fail(reason: Reason)

  /** `validAdd`: client, category, time range, price, in that order; the
      first failing check is the one reported. */
  function ValidAdd(client: Option<string>, category: string, start: string, end: string, price: string): (r: Check)
    ensures r == Fail(NoClient) <==> !Truthy(client)
    ensures r == Fail(NoCategory) <==> Truthy(client) && category == ""
    ensures r == Fail(BadRange) <==> Truthy(client) && category != "" && !ValidTimeRange(start, end)
    ensures r == Fail(NegativePrice) <==>
      Truthy(client) && category != "" && ValidTimeRange(start, end) && BadPrice(price)
    ensures r == Pass <==>
      Truthy(client) && category != "" && ValidTimeRange(start, end) && !BadPrice(price)
  {
    if !Truthy(client) then Fail(NoClient)
    else if category == "" then Fail(NoCategory)
    else if !ValidTimeRange(start, end) then Fail(BadRange)
    else if BadPrice(price) then Fail(NegativePrice)
    else Pass
  }

  /** The checks `saveEdit` makes before its query: time range, then price. */
  function ValidEdit(start: string, end: string, price: string): (r: Check)
    ensures r == Fail(BadRange) <==> !ValidTimeRange(start, end)
    ensures r == Fail(NegativePrice) <==> ValidTimeRange(start, end) && BadPrice(price)
    ensures r == Pass <==> ValidTimeRange(start, end) && !BadPrice(price)
  {
    if !ValidTimeRange(start, end) then Fail(BadRange)
    else if BadPrice(price) then Fail(NegativePrice)
    else Pass
  }

  /** The result of the overlap query over the appointments of the date:
      on a failure the page gets `data: null`. */
  datatype DayQuery = QueryFailed | DayRows(rows: seq<Appointment>)

  /** `overlaps || []`: a failed query counts as no overlapping row. */
  function Overlaps(q: DayQuery, start: int, end: int, exclude: Option<string>): seq<Appointment> {
    match q
    case QueryFailed => []
    case DayRows(rows) => OverlapRows(rows, start, end, exclude)
  }

  /** The add form (`addForm`) with the selected client. */
  datatype AddForm = AddForm(
    client: Option<string>,
    category: string,
    serviceId: Option<string>,
    start: string,
    end: string,
    price: string,
    note: string)

  datatype AddPayload = AddPayload(
    clientId: string,
    category: string,
    serviceId: Option<string>,
    date: string,
    startTime: string,
    endTime: string,
    price: Option<Amount>,
    note: Option<string>,
    status: Status)

  datatype AddOutcome = AddRejected(reason: Reason) | AddInsert(payload: AddPayload)

  /** `saveAdd` up to the insert: the checks, the overlap guard (nothing
      excluded), and the payload. */
  function SaveAdd(f: AddForm, date: string, q: DayQuery): (r: AddOutcome)
    ensures ValidAdd(f.client, f.category, f.start, f.end, f.price).Fail? ==>
      r == AddRejected(ValidAdd(f.client, f.category, f.start, f.end, f.price).reason)
    ensures r.AddInsert? ==>
      && ValidAdd(f.client, f.category, f.start, f.end, f.price) == Pass
      && (q.DayRows? ==> Free(q.rows, ToMin(f.start).v, ToMin(f.end).v, None))
      && ToMin(r.payload.startTime) == ToMin(f.start) && ToMin(r.payload.endTime) == ToMin(f.end)
      && r.payload == AddPayload(f.client.value, f.category, OrNull(f.serviceId), date,
                                 f.start + ":00", f.end + ":00", PayloadPrice(f.price),
                                 TextOrNull(f.note), Scheduled)
    ensures (ValidAdd(f.client, f.category, f.start, f.end, f.price) == Pass &&
             (q.QueryFailed? || Free(q.rows, ToMin(f.start).v, ToMin(f.end).v, None))) ==> r.AddInsert?
    ensures r == AddRejected(Overlap) ==>
      && ValidAdd(f.client, f.category, f.start, f.end, f.price) == Pass && q.DayRows?
      && exists i :: 0 <= i < |q.rows| && Conflicts(q.rows[i], ToMin(f.start).v, ToMin(f.end).v)
  {
    match ValidAdd(f.client, f.category, f.start, f.end, f.price)
    case Fail(why) => AddRejected(why)
    case Pass =>
      if |Overlaps(q, ToMin(f.start).v, ToMin(f.end).v, None)| > 0 then
        FreeIff(q.rows, ToMin(f.start).v, ToMin(f.end).v, None);
        AddRejected(Overlap)
      else
        ToMinWithSeconds(f.start);
        ToMinWithSeconds(f.end);
        AddInsert(AddPayload(f.client.value, f.category, OrNull(f.serviceId), date,
                             f.start + ":00", f.end + ":00", PayloadPrice(f.price),
                             TextOrNull(f.note), Scheduled))
  }

  /** The appointment an accepted add stores, in minutes. */
  function AddedInterval(id: string, p: AddPayload, category: Option<string>, service: Option<ServiceRef>): Appointment
    requires ToMin(p.startTime).Int? && ToMin(p.endTime).Int?
  {
    Appointment(id, ToMin(p.startTime).v, ToMin(p.endTime).v, p.status, category, service)
  }

  /** An add the guard let through on a successful query leaves a day
      without overlaps free of overlaps. */
  lemma SaveAddKeepsDayDisjoint(f: AddForm, date: string, rows: seq<Appointment>, id: string,
                                category: Option<string>, service: Option<ServiceRef>)
    requires Pairwise(rows, Disjoint)
    requires SaveAdd(f, date, DayRows(rows)).AddInsert?
    ensures var p := SaveAdd(f, date, DayRows(rows)).payload;
      ToMin(p.startTime).Int? && ToMin(p.endTime).Int? &&
      Pairwise(rows + [AddedInterval(id, p, category, service)], Disjoint)
  {
    var p := SaveAdd(f, date, DayRows(rows)).payload;
    var c := AddedInterval(id, p, category, service);
    AddKeepsDisjoint(rows, c);
  }

  /** A failed overlap query does not stop the day view: a valid add is
      inserted unchecked (the booking page refuses instead). */
  lemma AddProceedsOnFailedQuery(f: AddForm, date: string)
    requires ValidAdd(f.client, f.category, f.start, f.end, f.price) == Pass
    ensures SaveAdd(f, date, QueryFailed).AddInsert?
  {
  }

  /** The edit form (`edit`). */
  datatype EditForm = EditForm(
    date: string,
    start: string,
    end: string,
    price: string,
    note: string,
    category: string,
    serviceId: Option<string>)

  datatype EditPayload = EditPayload(
    date: string,
    startTime: string,
    endTime: string,
    price: Option<Amount>,
    note: string,
    category: Option<string>,
    serviceId: Option<string>)

  datatype EditOutcome = EditRejected(reason: Reason) | EditUpdate(payload: EditPayload)

  /** `saveEdit` up to the update of appointment `id`: the checks, the
      overlap guard over the rows of the edited date with `id` itself
      excluded, and the payload. */
  function SaveEdit(id: string, f: EditForm, q: DayQuery): (r: EditOutcome)
    ensures ValidEdit(f.start, f.end, f.price).Fail? ==>
      r == EditRejected(ValidEdit(f.start, f.end, f.price).reason)
    ensures r.EditUpdate? ==>
      && ValidEdit(f.start, f.end, f.price) == Pass
      && (q.DayRows? ==> Free(q.rows, ToMin(f.start).v, ToMin(f.end).v, Some(id)))
      && ToMin(r.payload.startTime) == ToMin(f.start) && ToMin(r.payload.endTime) == ToMin(f.end)
      && r.payload == EditPayload(f.date, f.start + ":00", f.end + ":00", PayloadPrice(f.price),
                                  f.note, TextOrNull(f.category), OrNull(f.serviceId))
    ensures (ValidEdit(f.start, f.end, f.price) == Pass &&
             (q.QueryFailed? || Free(q.rows, ToMin(f.start).v, ToMin(f.end).v, Some(id)))) ==> r.EditUpdate?
    ensures r == EditRejected(Overlap) ==>
      && ValidEdit(f.start, f.end, f.price) == Pass && q.DayRows?
      && exists i :: 0 <= i < |q.rows| && q.rows[i].id != id
                     && Conflicts(q.rows[i], ToMin(f.start).v, ToMin(f.end).v)
  {
    match ValidEdit(f.start, f.end, f.price)
    case Fail(why) => EditRejected(why)
    case Pass =>
      if |Overlaps(q, ToMin(f.start).v, ToMin(f.end).v, Some(id))| > 0 then
        FreeIff(q.rows, ToMin(f.start).v, ToMin(f.end).v, Some(id));
        EditRejected(Overlap)
      else
        ToMinWithSeconds(f.start);
        ToMinWithSeconds(f.end);
        EditUpdate(EditPayload(f.date, f.start + ":00", f.end + ":00", PayloadPrice(f.price),
                               f.note, TextOrNull(f.category), OrNull(f.serviceId)))
  }

  /** An edit never collides with the appointment being edited: moving an
      appointment within its own old interval is accepted. */
  lemma EditIgnoresItself(id: string, f: EditForm, old_: Appointment)
    requires old_.id == id
    requires ValidEdit(f.start, f.end, f.price) == Pass
    ensures SaveEdit(id, f, DayRows([old_])).EditUpdate?
  {
    assert !Considered(old_, Some(id));
    FreeIff([old_], ToMin(f.start).v, ToMin(f.end).v, Some(id));
  }

  /** An edit the guard let through, with unique ids, leaves a day without
      overlaps free of overlaps once the edited entry is replaced. */
  lemma SaveEditKeepsDayDisjoint(id: string, f: EditForm, rows: seq<Appointment>, c: Appointment)
    requires UniqueIds(rows) && Pairwise(rows, Disjoint)
    requires SaveEdit(id, f, DayRows(rows)).EditUpdate?
    requires c.id == id && c.start == ToMin(f.start).v && c.end == ToMin(f.end).v
    ensures Pairwise(UpdateByKey(rows, IdOf, id, _ => c), Disjoint)
  {
    EditKeepsDisjoint(rows, c);
  }

  // ---------------------------------------------------------------------
  // The page's list of the day's appointments

  /** `prev.map(x => x.id === id ? data : x).sort(byStart)` */
  function EditedItems(items: seq<Appointment>, id: string, data: Appointment): seq<Appointment> {
    SortedByStart(UpdateByKey(items, IdOf, id, _ => data))
  }

  /** `[...prev, data].sort(byStart)` */
  function AddedItems(items: seq<Appointment>, data: Appointment): seq<Appointment> {
    SortedByStart(items + [data])
  }

  /** `cur.map(x => x.id === id ? {...x, status} : x)` */
  function WithStatus(items: seq<Appointment>, id: string, status: Status): seq<Appointment> {
    UpdateByKey(items, IdOf, id, (x: Appointment) => x.(status := status))
  }

  /** After an edit the list is sorted by start, holds the returned row in
      place of every entry with the id, and every other entry unchanged. */
  lemma EditedItemsFacts(items: seq<Appointment>, id: string, data: Appointment)
    ensures Sorted(EditedItems(items, id, data), StartLe)
    ensures multiset(EditedItems(items, id, data)) == multiset(UpdateByKey(items, IdOf, id, _ => data))
    ensures forall x :: x in items && x.id != id ==> x in EditedItems(items, id, data)
    ensures (exists i :: 0 <= i < |items| && items[i].id == id) ==> data in EditedItems(items, id, data)
    ensures forall x :: x in EditedItems(items, id, data) ==> x == data || (x in items && x.id != id)
  {
    var u := UpdateByKey(items, IdOf, id, _ => data);
    var r := EditedItems(items, id, data);
    StartLeTotal();
    SortBySorted(u, StartLe);
    forall x | x in items && x.id != id ensures x in r {
      var i :| 0 <= i < |items| && items[i] == x;
      assert u[i] == x;
      assert x in multiset(u);
    }
    if exists i :: 0 <= i < |items| && items[i].id == id {
      var i :| 0 <= i < |items| && items[i].id == id;
      assert u[i] == data;
      assert data in multiset(u);
    }
    forall x | x in r ensures x == data || (x in items && x.id != id) {
      assert x in multiset(r);
      var i :| 0 <= i < |u| && u[i] == x;
    }
  }

  /** After an add the list is sorted by start and is the old list plus
      the returned row. */
  lemma AddedItemsFacts(items: seq<Appointment>, data: Appointment)
    ensures Sorted(AddedItems(items, data), StartLe)
    ensures multiset(AddedItems(items, data)) == multiset(items) + multiset{data}
  {
    StartLeTotal();
    SortBySorted(items + [data], StartLe);
  }

  /** A status change touches the status of the entries with that id and
      nothing else. */
  lemma WithStatusFacts(items: seq<Appointment>, id: string, status: Status)
    ensures |WithStatus(items, id, status)| == |items|
    ensures forall i :: 0 <= i < |items| ==>
      WithStatus(items, id, status)[i].(status := items[i].status) == items[i]
      && WithStatus(items, id, status)[i].status == if items[i].id == id then status else items[i].status
  {
  }

  /** The `items` state of the page. */
  class DayItems {
    var items: seq<Appointment>

    /** `setItems(data || [])` after loading the day. */
    constructor (loaded: seq<Appointment>)
      ensures items == loaded
    {
      items := loaded;
    }

    /** After a successful update in `saveEdit`. */
    method ApplyEdit(id: string, data: Appointment)
      modifies this
      ensures items == EditedItems(old(items), id, data)
    {
      items := EditedItems(items, id, data);
    }

    /** After a successful insert in `saveAdd`. */
    method ApplyAdd(data: Appointment)
      modifies this
      ensures items == AddedItems(old(items), data)
    {
      items := AddedItems(items, data);
    }

    /** `remove`: nothing happens unless the user confirms; otherwise drop
        the entry at once, and put the old list back when the delete fails. */
    method Remove(id: string, confirmed: bool, deleteOk: bool)
      modifies this
      ensures !confirmed ==> items == old(items)
      ensures (confirmed && deleteOk) ==> items == RemoveByKey(old(items), IdOf, id)
      ensures (confirmed && !deleteOk) ==> items == old(items)
    {
      if !confirmed {
        return;
      }
      var prev := items;
      items := RemoveByKey(items, IdOf, id);
      if !deleteOk {
        items := prev;
      }
    }

    /** `setStatus`: change the status at once, put the old list back when
        the update fails. */
    method SetStatus(id: string, status: Status, updateOk: bool)
      modifies this
      ensures updateOk ==> items == WithStatus(old(items), id, status)
      ensures !updateOk ==> items == old(items)
    {
      var prev := items;
      items := WithStatus(items, id, status);
      if !updateOk {
        items := prev;
      }
    }
  }

  // ---------------------------------------------------------------------
  // Cities of the week days

  /** An element of a stored `days` array: an integer, or anything else. */
  datatype DayValue = Whole(n: int) | NotWhole

  /** A stored city object; `None` fields are missing or null, `days` is
      `None` when it is not an array. */
  datatype StoredCity = StoredCity(name: Option<string>, color: Option<string>, days: Option<seq<DayValue>>)

  datatype City = City(name: string, color: string, days: seq<int>)

  predicate IsoDay(d: DayValue) {
    d.Whole? && 1 <= d.n <= 7
  }

  /** `c.days.filter(n => Number.isInteger(n) && n >= 1 && n <= 7)`, or `[]`. */
  function SanitizeDays(days: Option<seq<DayValue>>): (r: seq<int>)
    ensures days.None? ==> r == []
    ensures days.Some? ==> forall d :: d in r <==> Whole(d) in days.value && 1 <= d <= 7
  {
    match days
    case None => []
    case Some(ds) => DaysFrom(ds)
  }

  function DaysFrom(ds: seq<DayValue>): (r: seq<int>)
    ensures forall d :: d in r <==> Whole(d) in ds && 1 <= d <= 7
  {
    if ds == [] then []
    else
      assert forall v :: v in ds <==> v == ds[0] || v in ds[1..];
      (if IsoDay(ds[0]) then [ds[0].n] else []) + DaysFrom(ds[1..])
  }

  /** One city of `loadMeta`: a missing object or field reads as empty,
      the colour defaults to the grey. */
  function SanitizeCity(c: Option<StoredCity>): (r: City)
    ensures forall d :: d in r.days ==> 1 <= d <= 7
    ensures c.None? ==> r == City("", DefaultColor, [])
    ensures c.Some? ==> r.name == c.value.name.GetOr("") && r.color == c.value.color.GetOr(DefaultColor)
  {
    match c
    case None => City("", DefaultColor, [])
    case Some(sc) => City(sc.name.GetOr(""), sc.color.GetOr(DefaultColor), SanitizeDays(sc.days))
  }

  /** `Array.isArray(data?.cities) ? data.cities.map(...) : []` */
  function SanitizeCities(cities: Option<seq<Option<StoredCity>>>): (r: seq<City>)
    ensures cities.None? ==> r == []
    ensures cities.Some? ==> |r| == |cities.value|
    ensures cities.Some? ==> forall i :: 0 <= i < |r| ==> r[i] == SanitizeCity(cities.value[i])
  {
    match cities
    case None => []
    case Some(cs) => seq(|cs|, i requires 0 <= i < |cs| => SanitizeCity(cs[i]))
  }

  /** `cityForIsoDay`: the first city whose days include the ISO week day. */
  function CityForIsoDay(cities: seq<City>, isoDay: int): (r: Option<City>)
    ensures r.Some? <==> exists i :: 0 <= i < |cities| && isoDay in cities[i].days
    ensures r.Some? ==> isoDay in r.value.days
    ensures r.Some? ==> exists i :: 0 <= i < |cities| && cities[i] == r.value &&
                                      forall j :: 0 <= j < i ==> isoDay !in cities[j].days
  {
    var i := Find(cities, (c: City) => isoDay in c.days);
    if i < 0 then None else Some(cities[i])
  }

  /** After sanitising, a day outside 1..7 belongs to no city. */
  lemma NoCityOutsideWeek(stored: Option<seq<Option<StoredCity>>>, isoDay: int)
    requires !(1 <= isoDay <= 7)
    ensures CityForIsoDay(SanitizeCities(stored), isoDay) == None
  {
  }

  /** `currentCity?.color || DEFAULT_COLOR` */
  function CurrentCityColor(c: Option<City>): (r: string)
    ensures r != ""
    ensures c.Some? && c.value.color != "" ==> r == c.value.color
  {
    if c.Some? && c.value.color != "" then c.value.color else DefaultColor
  }

  // ---------------------------------------------------------------------
  // Colour of an appointment

  /** `a?.services?.category || a?.category || ""` */
  function ApptCategory(a: Appointment): string {
    if a.service.Some? && Truthy(a.service.value.category) then a.service.value.category.value
    else a.category.GetOr("")
  }

  /** `colorForAppt`: the sub-service's colour, else the colour of the
      category's own row, else the grey. The city never changes it. */
  function ColorForAppt(a: Appointment, services: seq<Service>): (r: string)
    ensures r != ""
  {
    if a.service.Some? && Truthy(a.service.value.color) then a.service.value.color.value
    else
      var i := Find(services, s => CategoryRow(s, ApptCategory(a)));
      if i >= 0 && Truthy(services[i].color) then services[i].color.value else DefaultColor
  }

  /** The order of the sources: a coloured joined service wins; without
      one the first category row of the appointment's category gives its
      colour, and the grey is used when that row has none or there is no
      such row (a later coloured category row is never consulted). */
  lemma ColorPriority(a: Appointment, services: seq<Service>)
    ensures a.service.Some? && Truthy(a.service.value.color) ==>
      ColorForAppt(a, services) == a.service.value.color.value
    ensures !(a.service.Some? && Truthy(a.service.value.color)) ==>
      && ((forall j :: 0 <= j < |services| ==> !CategoryRow(services[j], ApptCategory(a))) ==>
            ColorForAppt(a, services) == DefaultColor)
      && (forall i :: 0 <= i < |services| && CategoryRow(services[i], ApptCategory(a))
                      && (forall j :: 0 <= j < i ==> !CategoryRow(services[j], ApptCategory(a))) ==>
            ColorForAppt(a, services) == if Truthy(services[i].color) then services[i].color.value else DefaultColor)
  {
    var k := Find(services, s => CategoryRow(s, ApptCategory(a)));
    forall i | 0 <= i < |services| && CategoryRow(services[i], ApptCategory(a))
                && (forall j :: 0 <= j < i ==> !CategoryRow(services[j], ApptCategory(a)))
      ensures k == i
    {
      assert (s => CategoryRow(s, ApptCategory(a)))(services[i]);
    }
  }

  /** The colour comes from a row of the catalogue (the joined service or
      a category row of the appointment's category) or is the grey. */
  lemma ColorSource(a: Appointment, services: seq<Service>)
    ensures var r := ColorForAppt(a, services);
      r == DefaultColor
      || (a.service.Some? && a.service.value.color == Some(r))
      || exists s :: s in services && CategoryRow(s, ApptCategory(a)) && s.color == Some(r)
  {
    var r := ColorForAppt(a, services);
    if !(a.service.Some? && Truthy(a.service.value.color)) {
      var i := Find(services, s => CategoryRow(s, ApptCategory(a)));
      if i >= 0 && Truthy(services[i].color) {
        assert services[i] in services;
      }
    }
  }
}
