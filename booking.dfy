/** The booking page: the default price of a category or sub-service,
    the appointment checks, the overlap guard that refuses on a failed
    query, and the form state the page keeps between bookings. */
module Booking {

  import opened Optional
  import opened Strings
  import opened TimeText
  import opened PriceText
  import opened Records
  import opened Sorting
  import opened Lists
  import opened DaySchedule
  import opened OverlapGuard
  import DayView

  // ---------------------------------------------------------------------
  // Names and default prices

  /** `isEmptyName`: the trimmed name is empty or a lone dash (hyphen,
      em dash or en dash). */
  predicate IsEmptyName(name: Option<string>) {
    var n := Norm(name);
    n == "" || n == "-" || n == "—" || n == "–"
  }

  /** Normalising first changes nothing, and a name that is absent or
      only white space is empty. */
  lemma IsEmptyNameNormalised(name: Option<string>)
    ensures IsEmptyName(Some(Norm(name))) == IsEmptyName(name)
    ensures name.None? ==> IsEmptyName(name)
    ensures name.Some? && (forall i :: 0 <= i < |name.value| ==> IsSpace(name.value[i])) ==> IsEmptyName(name)
  {
    TrimIdempotent(name.GetOr(""));
    if name.Some? && forall i :: 0 <= i < |name.value| ==> IsSpace(name.value[i]) {
      TrimBlank(name.value);
    }
  }

  /** The row the category's own price comes from in `getDefaultPrice`. */
  predicate PriceRow(x: Service, category: string) {
    Norm(Some(x.category)) == Norm(Some(category)) && IsEmptyName(x.name)
  }

  /** `getDefaultPrice`: the selected sub-service's price when it has one,
      else the price of the category's own row, else nothing (`""`). */
  function GetDefaultPrice(services: seq<Service>, category: string, serviceId: Option<string>): (r: Option<int>)
    ensures r.Some? ==> exists s :: s in services && s.defaultPrice == r &&
                                    ((Truthy(serviceId) && s.id == serviceId.value) || PriceRow(s, category))
  {
    var i := if Truthy(serviceId) then Find(services, (x: Service) => x.id == serviceId.value) else -1;
    if i >= 0 && services[i].defaultPrice.Some? then
      assert services[i] in services;
      services[i].defaultPrice
    else if Norm(Some(category)) != "" then
      var j := Find(services, (x: Service) => PriceRow(x, category));
      if j >= 0 && services[j].defaultPrice.Some? then
        assert services[j] in services;
        services[j].defaultPrice
      else None
    else None
  }

  /** The order of the sources: the first service with the selected id
      wins when it has a price; otherwise the first category row decides,
      and a category row without a price gives nothing even when a later
      one has a price. */
  lemma DefaultPriceOrder(services: seq<Service>, category: string, serviceId: Option<string>)
    ensures var i := Find(services, (x: Service) => Truthy(serviceId) && x.id == serviceId.value);
      i >= 0 && services[i].defaultPrice.Some? ==>
        GetDefaultPrice(services, category, serviceId) == services[i].defaultPrice
    ensures var i := Find(services, (x: Service) => Truthy(serviceId) && x.id == serviceId.value);
      var j := Find(services, (x: Service) => PriceRow(x, category));
      (i < 0 || services[i].defaultPrice.None?) ==>
        GetDefaultPrice(services, category, serviceId) ==
          if Norm(Some(category)) != "" && j >= 0 then services[j].defaultPrice else None
  {
    var i := Find(services, (x: Service) => Truthy(serviceId) && x.id == serviceId.value);
    if Truthy(serviceId) {
      var i2 := Find(services, (x: Service) => x.id == serviceId.value);
      FindSame(services, (x: Service) => Truthy(serviceId) && x.id == serviceId.value,
                         (x: Service) => x.id == serviceId.value);
      assert i == i2;
    }
  }

  /** Two properties that agree on every element are found at the same place. */
  lemma {:induction false} FindSame<T>(s: seq<T>, p: T -> bool, q: T -> bool)
    requires forall i :: 0 <= i < |s| ==> p(s[i]) == q(s[i])
    ensures Find(s, p) == Find(s, q)
  {
    if s != [] {
      FindSame(s[1..], p, q);
    }
  }

  /** With neither a selected service nor a category there is no default. */
  lemma NoSelectionNoPrice(services: seq<Service>)
    ensures GetDefaultPrice(services, "", None) == None
  {
  }

  // ---------------------------------------------------------------------
  // Checks

  /** Booking's `validTimeRange`: `toSec(end) > toSec(start)`. */
  predicate ValidTimeRange(start: string, end: string) {
    ToSec(start).Int? && ToSec(end).Int? && ToSec(end).v > ToSec(start).v
  }

  /** On picker values both pages accept the same ranges; but an empty
      start with an end after midnight passes here and is refused by the
      day view. */
  lemma TimeRangeAgainstDayView(h1: nat, m1: nat, h2: nat, m2: nat)
    ensures ValidTimeRange(HhMm(h1, m1), HhMm(h2, m2)) <==> DayView.ValidTimeRange(HhMm(h1, m1), HhMm(h2, m2))
    ensures ValidTimeRange(HhMm(h1, m1), HhMm(h2, m2)) <==> h1 * 60 + m1 < h2 * 60 + m2
    ensures h2 * 60 + m2 > 0 ==> ValidTimeRange("", HhMm(h2, m2)) && !DayView.ValidTimeRange("", HhMm(h2, m2))
  {
    ToSecOfHhMm(h1, m1);
    ToSecOfHhMm(h2, m2);
    DayView.ValidTimeRangeOfHhMm(h1, m1, h2, m2);
  }

  /** A range this page accepts always reads as two numbers of minutes
      once the seconds are appended, so the overlap guard never meets NaN. */
  lemma AcceptedTimesRead(start: string, end: string)
    requires ValidTimeRange(start, end)
    ensures ToMin(start + ":00").Int? && ToMin(end + ":00").Int?
  {
    ToMinWithSeconds(start);
    ToMinWithSeconds(end);
    assert Split("0:0")[0] == "0" by {
      assert Split("") == [""];
      assert "0"[1..] == "" && ":0"[1..] == "0" && "0:0"[1..] == ":0";
      assert "0"[0] == '0' && ['0'] + "" == "0" && [""][1..] == [];
      assert Split("0") == ["0"];
      assert Split(":0") == ["", "0"];
    }
  }

  /** `validateAppointment`: client, category, time range, price, in that
      order; the first failing check is the one reported. */
  function ValidateAppointment(client: Option<string>, category: string, start: string, end: string, price: string): (r: DayView.Check)
    ensures r == DayView.Fail(DayView.NoClient) <==> !Truthy(client)
    ensures r == DayView.Fail(DayView.NoCategory) <==> Truthy(client) && category == ""
    ensures r == DayView.Fail(DayView.BadRange) <==> Truthy(client) && category != "" && !ValidTimeRange(start, end)
    ensures r == DayView.Fail(DayView.NegativePrice) <==>
      Truthy(client) && category != "" && ValidTimeRange(start, end) && BadPrice(price)
    ensures r == DayView.Pass <==>
      Truthy(client) && category != "" && ValidTimeRange(start, end) && !BadPrice(price)
  {
    if !Truthy(client) then DayView.Fail(DayView.NoClient)
    else if category == "" then DayView.Fail(DayView.NoCategory)
    else if !ValidTimeRange(start, end) then DayView.Fail(DayView.BadRange)
    else if BadPrice(price) then DayView.Fail(DayView.NegativePrice)
    else DayView.Pass
  }

  /** On picker times the booking page and the day view's add form give
      the same verdict. */
  lemma SameVerdictAsDayView(client: Option<string>, category: string, h1: nat, m1: nat, h2: nat, m2: nat, price: string)
    ensures ValidateAppointment(client, category, HhMm(h1, m1), HhMm(h2, m2), price)
         == DayView.ValidAdd(client, category, HhMm(h1, m1), HhMm(h2, m2), price)
  {
    TimeRangeAgainstDayView(h1, m1, h2, m2);
  }

  // ---------------------------------------------------------------------
  // Creating an appointment

  datatype Outcome = Refused(reason: DayView.Reason) | GuardFailed | Insert(payload: DayView.AddPayload)

  /** `handleCreateAppointment` up to the insert: the checks, then the
      overlap query over the date (nothing excluded); an error of that
      query refuses the booking. */
  function Book(client: Option<string>, category: string, serviceId: Option<string>, date: string,
                start: string, end: string, price: string, note: string, q: DayView.DayQuery): (r: Outcome)
    ensures ValidateAppointment(client, category, start, end, price).Fail? ==>
      r == Refused(ValidateAppointment(client, category, start, end, price).reason)
    ensures ValidateAppointment(client, category, start, end, price) == DayView.Pass && q.QueryFailed? ==> r == GuardFailed
    ensures r.Insert? ==>
      && ValidateAppointment(client, category, start, end, price) == DayView.Pass
      && q.DayRows? && ToMin(start + ":00").Int? && ToMin(end + ":00").Int?
      && Free(q.rows, ToMin(start + ":00").v, ToMin(end + ":00").v, None)
      && r.payload == DayView.AddPayload(client.value, category, OrNull(serviceId), date,
                                         start + ":00", end + ":00", PayloadPrice(price),
                                         TextOrNull(note), Scheduled)
    ensures (ValidateAppointment(client, category, start, end, price) == DayView.Pass && q.DayRows?
             && ToMin(start + ":00").Int? && ToMin(end + ":00").Int?
             && Free(q.rows, ToMin(start + ":00").v, ToMin(end + ":00").v, None)) ==> r.Insert?
    ensures r == Refused(DayView.Overlap) ==>
      && ValidateAppointment(client, category, start, end, price) == DayView.Pass && q.DayRows?
      && ToMin(start + ":00").Int? && ToMin(end + ":00").Int?
      && exists i :: 0 <= i < |q.rows| && Conflicts(q.rows[i], ToMin(start + ":00").v, ToMin(end + ":00").v)
  {
    match ValidateAppointment(client, category, start, end, price)
    case Fail(why) => Refused(why)
    case Pass =>
      match q
      case QueryFailed => GuardFailed
      case DayRows(rows) =>
        AcceptedTimesRead(start, end);
        var s := ToMin(start + ":00");
        var e := ToMin(end + ":00");
        if |OverlapRows(rows, s.v, e.v, None)| > 0 then
          FreeIff(rows, s.v, e.v, None);
          Refused(DayView.Overlap)
        else Insert(DayView.AddPayload(client.value, category, OrNull(serviceId), date,
                                       start + ":00", end + ":00", PayloadPrice(price),
                                       TextOrNull(note), Scheduled))
  }

  /** A booking that is inserted keeps a day without overlaps free of
      overlaps. */
  lemma BookKeepsDayDisjoint(client: Option<string>, category: string, serviceId: Option<string>, date: string,
                             start: string, end: string, price: string, note: string,
                             rows: seq<Appointment>, c: Appointment)
    requires Pairwise(rows, Disjoint)
    requires Book(client, category, serviceId, date, start, end, price, note, DayView.DayRows(rows)).Insert?
    requires c.start == ToMin(start + ":00").v && c.end == ToMin(end + ":00").v
    ensures Pairwise(rows + [c], Disjoint)
  {
    AddKeepsDisjoint(rows, c);
  }

  /** The new-client form. */
  datatype NewClient = NewClient(name: string, phone: string, email: string, gender: string)

  const EmptyNewClient: NewClient := NewClient("", "", "", "female")

  /** The inserted client row of `handleCreateClient`. */
  datatype ClientPayload = ClientPayload(name: string, phone: Option<string>, email: Option<string>, gender: string)

  /** `{...newClient, name: trim, email: trim || null, phone: trim || null}` */
  function NewClientPayload(c: NewClient): (p: ClientPayload)
    ensures p.name == Trim(c.name) && p.gender == c.gender
    ensures p.phone.Some? <==> Trim(c.phone) != ""
    ensures p.phone.Some? ==> p.phone.value == Trim(c.phone)
    ensures p.email.Some? <==> Trim(c.email) != ""
    ensures p.email.Some? ==> p.email.value == Trim(c.email)
  {
    ClientPayload(Trim(c.name), TextOrNull(Trim(c.phone)), TextOrNull(Trim(c.email)), c.gender)
  }

  /** `[...prev, data]`, de-duplicated by id, sorted by name. */
  function MergeClient(clients: seq<Client>, data: Client, byName: (Client, Client) -> bool): seq<Client> {
    SortBy(DedupeByKey(clients + [data], ClientId), byName)
  }

  /** After the merge no id appears twice, every id of the old list and
      the new one is present, nothing else is, and the list is in name
      order. That an id already present keeps its old row is
      MergeKeepsOldRows. */
  lemma MergeClientFacts(clients: seq<Client>, data: Client, byName: (Client, Client) -> bool)
    requires Total(byName)
    ensures var r := MergeClient(clients, data, byName);
      && Sorted(r, byName)
      && (forall a, b :: 0 <= a < b < |r| ==> r[a].id != r[b].id)
      && (forall y :: y in r ==> y in clients || y == data)
      && (exists y :: y in r && y.id == data.id)
      && (forall i :: 0 <= i < |clients| ==> exists y :: y in r && y.id == clients[i].id)
  {
    var all := clients + [data];
    var d := DedupeByKey(all, ClientId);
    var r := MergeClient(clients, data, byName);
    DedupeByKeyFacts(all, ClientId);
    SortBySorted(d, byName);
    assert multiset(r) == multiset(d);
    forall a, b | 0 <= a < b < |r| ensures r[a].id != r[b].id {
      SortKeepsDistinct(d, byName, a, b);
    }
    forall y | y in r ensures y in clients || y == data {
      assert y in multiset(d);
      assert y in all;
    }
    assert all[|clients|] == data;
    var k := FindIndex(all, ClientId, data.id);
    assert all[k] in d && all[k].id == data.id;
    assert all[k] in multiset(r);
    forall i | 0 <= i < |clients| ensures exists y :: y in r && y.id == clients[i].id {
      assert all[i] == clients[i];
      var k := FindIndex(all, ClientId, clients[i].id);
      assert all[k] in d;
      assert all[k] in multiset(r);
    }
  }

  /** An id the list already had keeps its old row: the client returned by
      the insert is kept only when its id is new. */
  lemma MergeKeepsOldRows(clients: seq<Client>, data: Client, byName: (Client, Client) -> bool)
    ensures forall y, i :: y in MergeClient(clients, data, byName) && 0 <= i < |clients| && clients[i].id == y.id
                           ==> y in clients
  {
    var all := clients + [data];
    var d := DedupeByKey(all, ClientId);
    var r := MergeClient(clients, data, byName);
    DedupeFromOrigin(all, ClientId, 0);
    forall y, i | y in r && 0 <= i < |clients| && clients[i].id == y.id ensures y in clients {
      assert y in multiset(d);
      assert y in DedupeFrom(all, ClientId, 0);
      var j :| 0 <= j < |all| && all[j] == y && FindIndex(all, ClientId, ClientId(y)) == j;
      assert all[i] == clients[i];
      assert all[j] == clients[j];
    }
  }

  /** Sorting keeps the ids of a list whose ids are distinct distinct. */
  lemma SortKeepsDistinct(d: seq<Client>, byName: (Client, Client) -> bool, a: nat, b: nat)
    requires forall x, y :: 0 <= x < y < |d| ==> d[x].id != d[y].id
    requires a < b < |SortBy(d, byName)|
    ensures SortBy(d, byName)[a].id != SortBy(d, byName)[b].id
  {
    var rel := (u: Client, v: Client) => u.id != v.id;
    SortByPairwise(d, byName, rel);
    assert rel(SortBy(d, byName)[a], SortBy(d, byName)[b]);
  }

  // ---------------------------------------------------------------------
  // The form state

  /** The fields of the form, as one value. */
  datatype FormState = FormState(
    date: string,
    start: string,
    end: string,
    price: string,
    note: string,
    priceEdited: bool,
    category: string,
    serviceId: Option<string>,
    clientId: Option<string>,
    clientSearch: string,
    clients: seq<Client>,
    newClient: NewClient)

  /** The booking a form in this state asks for. */
  function BookState(s: FormState, q: DayView.DayQuery): Outcome {
    Book(s.clientId, s.category, s.serviceId, s.date, s.start, s.end, s.price, s.note, q)
  }

  /** The page's state between bookings. */
  class BookingForm {
    var date: string
    var start: string
    var end: string
    var price: string
    var note: string
    var priceEdited: bool
    var category: string
    var serviceId: Option<string>
    var clientId: Option<string>
    var clientSearch: string
    var clients: seq<Client>
    var newClient: NewClient

    function State(): FormState
      reads this
    {
      FormState(date, start, end, price, note, priceEdited, category, serviceId,
                clientId, clientSearch, clients, newClient)
    }

    /** The initial state: 09:15 to 10:00 on the given day, no price, no
        client, no category. */
    constructor (today: string)
      ensures State() == FormState(today, "09:15", "10:00", "", "", false, "", None, None, "", [], EmptyNewClient)
    {
      date := today;
      start := "09:15";
      end := "10:00";
      price := "";
      note := "";
      priceEdited := false;
      category := "";
      serviceId := None;
      clientId := None;
      clientSearch := "";
      clients := [];
      newClient := EmptyNewClient;
    }

    /** A category button: the category is chosen, the sub-service and
        the price are cleared, and the price counts as not edited. */
    method SelectCategory(cat: string)
      modifies this
      ensures State() == old(State()).(category := cat, serviceId := None, price := "", priceEdited := false)
    {
      category := cat;
      serviceId := None;
      price := "";
      priceEdited := false;
    }

    /** The sub-service select (`e.target.value || null`). */
    method SelectService(v: string)
      modifies this
      ensures State() == old(State()).(serviceId := TextOrNull(v), price := "", priceEdited := false)
    {
      serviceId := TextOrNull(v);
      price := "";
      priceEdited := false;
    }

    /** Typing a price marks it as edited. */
    method EditPrice(text: string)
      modifies this
      ensures State() == old(State()).(price := text, priceEdited := true)
    {
      price := text;
      priceEdited := true;
    }

    /** The auto-price effect: with a workspace and an unedited price, a
        default price is written as `String(p)`; otherwise nothing changes. */
    method AutoPrice(hasWorkspace: bool, services: seq<Service>)
      modifies this
      ensures var p := GetDefaultPrice(services, old(category), old(serviceId));
        State() == if hasWorkspace && !old(priceEdited) && p.Some?
                   then old(State()).(price := CentsText(p.value))
                   else old(State())
    {
      if !hasWorkspace || priceEdited {
        return;
      }
      var p := GetDefaultPrice(services, category, serviceId);
      if p.Some? {
        price := CentsText(p.value);
      }
    }

    /** `handleCreateAppointment`: on a successful insert only the price,
        the note and the edited flag are reset; the date, the times, the
        client and the category stay for the next booking. */
    method CreateAppointment(q: DayView.DayQuery, insertOk: bool) returns (r: Outcome)
      modifies this
      ensures r == BookState(old(State()), q)
      ensures State() == if r.Insert? && insertOk
                         then old(State()).(price := "", note := "", priceEdited := false)
                         else old(State())
    {
      r := Book(clientId, category, serviceId, date, start, end, price, note, q);
      if r.Insert? && insertOk {
        price := "";
        note := "";
        priceEdited := false;
      }
    }

    /** The state updates after a client was created: the new list, the
        new client selected, the search and the form cleared. */
    method Adopt(merged: seq<Client>, id: string)
      modifies this
      ensures State() == old(State()).(clients := merged, clientId := Some(id), clientSearch := "",
                                       newClient := EmptyNewClient)
    {
      clients := merged;
      clientSearch := "";
      clientId := Some(id);
      newClient := EmptyNewClient;
    }

    /** `handleCreateClient`: a blank name is refused before any write; a
        created client is merged into the list and selected, the search
        and the form are cleared. Returns the payload that was sent. */
    method CreateClient(data: Client, insertOk: bool, byName: (Client, Client) -> bool)
      returns (sent: Option<ClientPayload>)
      modifies this
      ensures sent.Some? <==> Trim(old(newClient).name) != ""
      ensures sent.Some? ==> sent.value == NewClientPayload(old(newClient))
      ensures sent.Some? && insertOk ==>
        State() == old(State()).(clients := MergeClient(old(clients), data, byName),
                                 clientId := Some(data.id), clientSearch := "",
                                 newClient := EmptyNewClient)
      ensures !(sent.Some? && insertOk) ==> State() == old(State())
    {
      if Trim(newClient.name) == "" {
        sent := None;
      } else {
        sent := Some(NewClientPayload(newClient));
        if insertOk {
          Adopt(MergeClient(clients, data, byName), data.id);
        }
      }
    }
  }

  /** An auto-filled price reads back as the default price, and is never
      a negative-price refusal unless the default itself is negative. */
  lemma AutoPriceReadsBack(p: int)
    ensures PayloadPrice(CentsText(p)) == Some(Exact(p as real / 100.0))
    ensures CentsOf(PayloadPrice(CentsText(p)).value) == Some(p)
    ensures BadPrice(CentsText(p)) <==> p < 0
  {
    NumberOfCentsText(p);
  }
}
