/** The statistics page: one month of appointments, with the excluded
    ones removed, filtered by the client's gender and by category, then
    summed up into the KPI cards, the per-day revenue bars, the per-day
    tooltip and the per-category table. */
module Stats {

  import opened Optional
  import opened Strings
  import opened TimeText
  import opened Records
  import opened Lists
  import opened Sorting
  import opened OrderedMaps

  /** The `services(id, category, color, exclude_from_stats)` row joined to
      an appointment. */
  datatype LinkedService = LinkedService(
    id: string,
    category: Option<string>,
    excludeFromStats: bool)

  /** An `appointments` row with its joined service and `clients(gender)`. */
  datatype StatAppt = StatAppt(
    date: string,
    startTime: Option<string>,
    endTime: Option<string>,
    clientId: Option<string>,
    gender: Option<string>,
    serviceId: Option<string>,
    service: Option<LinkedService>,
    category: Option<string>,
    price: Option<int>,
    status: Status)

  /** `Number(a.price) || 0` */
  function Price(a: StatAppt): int {
    a.price.GetOr(0)
  }

  // ---------------------------------------------------------------------
  // Category and exclusion

  /** `a.services?.category || a.category || ""`: the linked service's
      category wins, the appointment's own one is the fallback. */
  function ApptCategory(a: StatAppt): (r: string)
    ensures a.service.Some? && Truthy(a.service.value.category) ==> r == a.service.value.category.value
    ensures !(a.service.Some? && Truthy(a.service.value.category)) ==> r == a.category.GetOr("")
    ensures r == "" <==> !(a.service.Some? && Truthy(a.service.value.category)) && !Truthy(a.category)
  {
    if a.service.Some? && Truthy(a.service.value.category) then a.service.value.category.value
    else if Truthy(a.category) then a.category.value
    else ""
  }

  predicate LinkedExcluded(a: StatAppt) {
    a.service.Some? && a.service.value.excludeFromStats
  }

  /** No `service_id`, or no joined service row. */
  predicate Unlinked(a: StatAppt) {
    !Truthy(a.serviceId) || a.service.None?
  }

  function IsCategoryRow(cat: string): Service -> bool {
    (s: Service) => CategoryRow(s, cat)
  }

  /** The first category row of `cat` in the list is marked excluded. */
  ghost predicate FirstRowExcluded(services: seq<Service>, cat: string) {
    exists i :: 0 <= i < |services| && CategoryRow(services[i], cat) && services[i].excludeFromStats
      && forall j :: 0 <= j < i ==> !CategoryRow(services[j], cat)
  }

  /** `isExcluded`: the linked service is excluded; or there is no link, the
      appointment names a category and the category's own row (the first
      one `find` meets) is excluded. */
  function IsExcluded(a: StatAppt, services: seq<Service>): (r: bool)
    ensures r <==> (LinkedExcluded(a)
      || (Unlinked(a) && Truthy(a.category) && FirstRowExcluded(services, a.category.value)))
  {
    if LinkedExcluded(a) then true
    else if Unlinked(a) && Truthy(a.category) then
      var i := Find(services, IsCategoryRow(a.category.value));
      i >= 0 && services[i].excludeFromStats
    else false
  }

  /** A linked service decides on its own: the category rows are consulted
      only for an appointment without a usable link. */
  lemma LinkedServiceDecides(a: StatAppt, services: seq<Service>, other: seq<Service>)
    requires !Unlinked(a)
    ensures IsExcluded(a, services) == IsExcluded(a, other) == LinkedExcluded(a)
  {
  }

  // ---------------------------------------------------------------------
  // The filtered subsets

  function NotExcluded(services: seq<Service>): StatAppt -> bool {
    (a: StatAppt) => !IsExcluded(a, services)
  }

  /** `baseMonth`: the month without its excluded appointments. */
  function BaseMonth(items: seq<StatAppt>, services: seq<Service>): (r: seq<StatAppt>)
    ensures |r| <= |items|
    ensures forall a :: a in r <==> a in items && !IsExcluded(a, services)
  {
    Filter(items, NotExcluded(services))
  }

  /** `(a.clients?.gender || "")` */
  function GenderOf(a: StatAppt): string {
    a.gender.GetOr("")
  }

  function HasGender(g: string): StatAppt -> bool {
    (a: StatAppt) => GenderOf(a) == g
  }

  function InCategory(c: string): StatAppt -> bool {
    (a: StatAppt) => ApptCategory(a) == c
  }

  /** What the two selects let through; an empty select lets all through. */
  predicate Selected(a: StatAppt, gender: string, category: string) {
    (gender == "" || GenderOf(a) == gender) && (category == "" || ApptCategory(a) == category)
  }

  /** `filtered`: the gender filter, then the category filter, each only
      when its select is set. */
  function Filtered(base: seq<StatAppt>, gender: string, category: string): (r: seq<StatAppt>)
    ensures |r| <= |base|
    ensures forall a :: a in r <==> a in base && Selected(a, gender, category)
    ensures gender == "" && category == "" ==> r == base
  {
    var g := if gender != "" then Filter(base, HasGender(gender)) else base;
    if category != "" then Filter(g, InCategory(category)) else g
  }

  predicate IsAttended(a: StatAppt) {
    a.status == Attended
  }

  predicate IsNoShow(a: StatAppt) {
    a.status == NoShow
  }

  /** `["attended", "no_show"].includes(a.status)` */
  predicate IsSettled(a: StatAppt) {
    a.status == Attended || a.status == NoShow
  }

  /** `filteredAttended` */
  function AttendedOf(s: seq<StatAppt>): (r: seq<StatAppt>)
    ensures |r| <= |s|
    ensures forall a :: a in r <==> a in s && a.status == Attended
  {
    Filter(s, IsAttended)
  }

  // ---------------------------------------------------------------------
  // KPI cards

  /** `s + x` on numbers: NaN absorbs. */
  function AddNum(x: Num, y: Num): Num {
    match (x, y)
    case (Int(p), Int(q)) => Int(p + q)
    case _ => NaN
  }

  function MinutesOf(a: StatAppt): Num {
    DiffMinutes(a.startTime, a.endTime)
  }

  /** `s.reduce((m, a) => m + diffMinutes(a.start_time, a.end_time), 0)`:
      a number exactly when every appointment's duration is one, and then
      never negative. */
  function MinutesSum(s: seq<StatAppt>): (r: Num)
    ensures r.Int? <==> forall i :: 0 <= i < |s| ==> MinutesOf(s[i]).Int?
    ensures r.Int? ==> r.v >= 0
  {
    if s == [] then Int(0)
    else
      var init := s[..|s| - 1];
      assert forall i :: 0 <= i < |init| ==> init[i] == s[i];
      AddNum(MinutesSum(init), MinutesOf(s[|s| - 1]))
  }

  /** `new Set(s.map(a => a.client_id))` */
  function ClientIds(s: seq<StatAppt>): (r: set<Option<string>>)
    ensures forall i :: 0 <= i < |s| ==> s[i].clientId in r
    ensures |r| <= |s|
    ensures s != [] ==> |r| >= 1
  {
    if s == [] then {}
    else
      var init := s[..|s| - 1];
      var rest := ClientIds(init);
      assert forall i :: 0 <= i < |init| ==> init[i] == s[i];
      rest + {s[|s| - 1].clientId}
  }

  /** The set holds nothing but the appointments' client ids. */
  lemma {:induction false} ClientIdsOnly(s: seq<StatAppt>, x: Option<string>)
    requires x in ClientIds(s)
    ensures exists i :: 0 <= i < |s| && s[i].clientId == x
  {
    var init := s[..|s| - 1];
    if x != s[|s| - 1].clientId {
      ClientIdsOnly(init, x);
      var i :| 0 <= i < |init| && init[i].clientId == x;
      assert s[i] == init[i];
    }
  }

  /** `okPlusNoShow ? (noShow * 100) / okPlusNoShow : 0` */
  function NoShowPct(noShow: nat, okPlusNoShow: nat): (r: real)
    ensures okPlusNoShow == 0 ==> r == 0.0
    ensures okPlusNoShow > 0 ==> r * okPlusNoShow as real == noShow as real * 100.0
    ensures noShow <= okPlusNoShow ==> 0.0 <= r <= 100.0
  {
    if okPlusNoShow == 0 then 0.0
    else
      var r := (noShow as real * 100.0) / okPlusNoShow as real;
      assert noShow <= okPlusNoShow ==> r <= 100.0 by {
        if noShow <= okPlusNoShow {
          assert noShow as real * 100.0 <= okPlusNoShow as real * 100.0;
        }
      }
      r
  }

  /** Every settled appointment is either attended or a no-show. */
  lemma {:induction false} SettledSplits(s: seq<StatAppt>)
    ensures |Filter(s, IsSettled)| == |Filter(s, IsAttended)| + |Filter(s, IsNoShow)|
  {
    if s != [] {
      SettledSplits(s[1..]);
    }
  }

  datatype Kpis = Kpis(
    visits: nat,
    revenue: int,
    minutes: Num,
    uniqueClients: nat,
    noShow: nat,
    okPlusNoShow: nat,
    noShowPct: real)

  function SelectedBy(gender: string, category: string): StatAppt -> bool {
    (a: StatAppt) => Selected(a, gender, category)
  }

  /** The selects applied one after the other are one filter by both. */
  lemma FilteredIsSelected(base: seq<StatAppt>, gender: string, category: string)
    ensures Filtered(base, gender, category) == Filter(base, SelectedBy(gender, category))
  {
    var sel := SelectedBy(gender, category);
    if gender != "" && category != "" {
      FilterFilter(base, InCategory(category), HasGender(gender), sel);
    } else if gender != "" {
      FilterSame(base, HasGender(gender), sel);
    } else if category != "" {
      FilterSame(base, InCategory(category), sel);
    } else {
      FilterAll(base, sel);
    }
  }

  /** A visit: an appointment of the month that is not excluded, passes
      both selects and was attended. */
  predicate IsVisit(a: StatAppt, services: seq<Service>, gender: string, category: string) {
    !IsExcluded(a, services) && Selected(a, gender, category) && IsAttended(a)
  }

  function VisitIn(services: seq<Service>, gender: string, category: string): StatAppt -> bool {
    (a: StatAppt) => IsVisit(a, services, gender, category)
  }

  /** A no-show of the month that is not excluded (the selects do not apply). */
  function NoShowIn(services: seq<Service>): StatAppt -> bool {
    (a: StatAppt) => !IsExcluded(a, services) && IsNoShow(a)
  }

  /** An attended or no-show appointment of the month that is not excluded. */
  function SettledIn(services: seq<Service>): StatAppt -> bool {
    (a: StatAppt) => !IsExcluded(a, services) && IsSettled(a)
  }

  /** The clients of the month's visits. */
  ghost function VisitClients(items: seq<StatAppt>, services: seq<Service>, gender: string, category: string): set<Option<string>> {
    set i | 0 <= i < |items| && IsVisit(items[i], services, gender, category) :: items[i].clientId
  }

  /** The pipeline `baseMonth`, `filtered`, `filteredAttended` keeps the
      visits of the month, in their order. */
  lemma VisitsOfMonth(items: seq<StatAppt>, services: seq<Service>, gender: string, category: string)
    ensures AttendedOf(Filtered(BaseMonth(items, services), gender, category))
         == Filter(items, VisitIn(services, gender, category))
  {
    var ne := NotExcluded(services);
    var sel := SelectedBy(gender, category);
    var nesel := (a: StatAppt) => !IsExcluded(a, services) && Selected(a, gender, category);
    FilteredIsSelected(BaseMonth(items, services), gender, category);
    FilterFilter(items, sel, ne, nesel);
    FilterFilter(items, IsAttended, nesel, VisitIn(services, gender, category));
  }

  /** The client ids of a filtered list are those of the records the filter keeps. */
  lemma ClientIdsOfFilter(items: seq<StatAppt>, services: seq<Service>, gender: string, category: string)
    ensures ClientIds(Filter(items, VisitIn(services, gender, category))) == VisitClients(items, services, gender, category)
  {
    var v := Filter(items, VisitIn(services, gender, category));
    var want := VisitClients(items, services, gender, category);
    forall x | x in ClientIds(v) ensures x in want {
      ClientIdsOnly(v, x);
      var j :| 0 <= j < |v| && v[j].clientId == x;
      var i :| 0 <= i < |items| && items[i] == v[j];
      assert IsVisit(items[i], services, gender, category);
    }
    forall x | x in want ensures x in ClientIds(v) {
      var i :| 0 <= i < |items| && IsVisit(items[i], services, gender, category) && items[i].clientId == x;
      assert VisitIn(services, gender, category)(items[i]);
      var j :| 0 <= j < |v| && v[j] == items[i];
    }
  }

  /** The KPI cards. The visit, revenue, minute and client figures count the
      visits of the month; the no-show figures are taken over the whole
      unexcluded month, whatever the selects say. */
  function ComputeKpis(items: seq<StatAppt>, services: seq<Service>, gender: string, category: string): (k: Kpis)
    ensures var visits := Filter(items, VisitIn(services, gender, category));
      && k.visits == |visits|
      && k.revenue == SumBy(visits, Price)
      && k.minutes == MinutesSum(visits)
      && k.uniqueClients == |VisitClients(items, services, gender, category)|
    ensures k.noShow == |Filter(items, NoShowIn(services))|
    ensures k.okPlusNoShow == |Filter(items, SettledIn(services))|
    ensures k.noShowPct == NoShowPct(k.noShow, k.okPlusNoShow)
    ensures k.uniqueClients <= k.visits <= |items|
    ensures k.visits > 0 ==> k.uniqueClients >= 1
    ensures k.minutes.Int? ==> k.minutes.v >= 0
    ensures k.okPlusNoShow == |AttendedOf(BaseMonth(items, services))| + k.noShow
    ensures gender == "" && category == "" ==> k.okPlusNoShow == k.visits + k.noShow
    ensures 0.0 <= k.noShowPct <= 100.0
    ensures k.okPlusNoShow == 0 ==> k.noShowPct == 0.0
  {
    var base := BaseMonth(items, services);
    var att := AttendedOf(Filtered(base, gender, category));
    var noShow := |Filter(base, IsNoShow)|;
    var okp := |Filter(base, IsSettled)|;
    SettledSplits(base);
    VisitsOfMonth(items, services, gender, category);
    ClientIdsOfFilter(items, services, gender, category);
    FilterFilter(items, IsNoShow, NotExcluded(services), NoShowIn(services));
    FilterFilter(items, IsSettled, NotExcluded(services), SettledIn(services));
    Kpis(|att|, SumBy(att, Price), MinutesSum(att), |ClientIds(att)|, noShow, okp, NoShowPct(noShow, okp))
  }

  // ---------------------------------------------------------------------
  // Revenue per day

  function OnDate(d: string): StatAppt -> bool {
    (a: StatAppt) => a.date == d
  }

  /** The attended revenue of day `d`. */
  function DayRevenue(s: seq<StatAppt>, d: string): int {
    SumBy(Filter(s, OnDate(d)), Price)
  }

  lemma DayRevenueSnoc(s: seq<StatAppt>, a: StatAppt, d: string)
    ensures DayRevenue(s + [a], d) == DayRevenue(s, d) + (if a.date == d then Price(a) else 0)
  {
    FilterAppend(s, [a], OnDate(d));
    SumByAppend(Filter(s, OnDate(d)), Filter([a], OnDate(d)), Price);
    assert [a][1..] == [];
  }

  function Dates(s: seq<StatAppt>): (r: seq<string>)
    ensures |r| == |s| && forall i :: 0 <= i < |s| ==> r[i] == s[i].date
  {
    seq(|s|, i requires 0 <= i < |s| => s[i].date)
  }

  function IntValue(x: int): int {
    x
  }

  /** The Map after the attended prefix `s`: a key for each day and each
      date met, each holding its day's revenue, together all of it. */
  ghost predicate DayMapOf(m: seq<(string, int)>, days: seq<string>, s: seq<StatAppt>) {
    DistinctKeys(m)
    && (forall d :: Get(m, d).Some? <==> d in days || d in Dates(s))
    && (forall d :: Get(m, d).GetOr(0) == DayRevenue(s, d))
    && SumBy(Values(m), IntValue) == SumBy(s, Price)
  }

  /** `map.set(k, (map.get(k) || 0) + (Number(a.price) || 0))` */
  function DayPut(m: seq<(string, int)>, a: StatAppt): seq<(string, int)> {
    Put(m, a.date, Get(m, a.date).GetOr(0) + Price(a))
  }

  lemma DayStepKeys(m: seq<(string, int)>, days: seq<string>, s: seq<StatAppt>, a: StatAppt)
    requires DistinctKeys(m)
    requires forall d :: Get(m, d).Some? <==> d in days || d in Dates(s)
    ensures DistinctKeys(DayPut(m, a))
    ensures forall d :: Get(DayPut(m, a), d).Some? <==> d in days || d in Dates(s + [a])
    ensures |DayPut(m, a)| >= |m| && forall i :: 0 <= i < |m| ==> DayPut(m, a)[i].0 == m[i].0
    ensures a.date in days ==> |DayPut(m, a)| == |m|
  {
    PutFacts(m, a.date, Get(m, a.date).GetOr(0) + Price(a));
    assert Dates(s + [a]) == Dates(s) + [a.date];
  }

  lemma DayStepRevenue(m: seq<(string, int)>, s: seq<StatAppt>, a: StatAppt)
    requires DistinctKeys(m)
    requires forall d :: Get(m, d).GetOr(0) == DayRevenue(s, d)
    ensures forall d :: Get(DayPut(m, a), d).GetOr(0) == DayRevenue(s + [a], d)
  {
    var v := Get(m, a.date).GetOr(0) + Price(a);
    var r := DayPut(m, a);
    assert r == Put(m, a.date, v);
    PutFacts(m, a.date, v);
    forall d ensures Get(r, d).GetOr(0) == DayRevenue(s + [a], d) {
      DayRevenueSnoc(s, a, d);
      if d == a.date {
        assert Get(r, d) == Some(v);
      } else {
        assert Get(r, d) == Get(m, d);
      }
    }
  }

  lemma DayStepSum(m: seq<(string, int)>, s: seq<StatAppt>, a: StatAppt)
    requires DistinctKeys(m)
    requires SumBy(Values(m), IntValue) == SumBy(s, Price)
    ensures SumBy(Values(DayPut(m, a)), IntValue) == SumBy(s + [a], Price)
  {
    PutSum(m, a.date, Get(m, a.date).GetOr(0) + Price(a), IntValue);
    SumByAppend(s, [a], Price);
    assert [a][1..] == [];
  }

  /** The entries begin with the days, in order. */
  ghost predicate StartsWithDays(m: seq<(string, int)>, days: seq<string>) {
    |days| <= |m| && forall t :: 0 <= t < |days| ==> m[t].0 == days[t]
  }

  /** Every appointment falls on one of the days. */
  predicate DatesIn(s: seq<StatAppt>, days: seq<string>) {
    forall i :: 0 <= i < |s| ==> s[i].date in days
  }

  lemma DayStep(m: seq<(string, int)>, days: seq<string>, s: seq<StatAppt>, a: StatAppt)
    requires DayMapOf(m, days, s)
    ensures DayMapOf(DayPut(m, a), days, s + [a])
    ensures StartsWithDays(m, days) ==> StartsWithDays(DayPut(m, a), days)
    ensures a.date in days ==> |DayPut(m, a)| == |m|
  {
    DayStepKeys(m, days, s, a);
    DayStepRevenue(m, s, a);
    DayStepSum(m, s, a);
  }

  /** The Map built from the days, every entry 0. */
  ghost predicate ZeroMapOf(m: seq<(string, int)>, days: seq<string>) {
    DistinctKeys(m)
    && (forall d :: Get(m, d) == if d in days then Some(0) else None)
    && SumBy(Values(m), IntValue) == 0
  }

  /** `new Map(days.map(d => [d, 0]))`: the entries set in order. */
  function ZeroMap(days: seq<string>): (m: seq<(string, int)>)
    ensures ZeroMapOf(m, days)
    ensures Distinct(days) ==> |m| == |days| && forall t :: 0 <= t < |days| ==> m[t].0 == days[t]
  {
    if days == [] then []
    else
      var init := days[..|days| - 1];
      var d := days[|days| - 1];
      var m0 := ZeroMap(init);
      assert days == init + [d];
      PutFacts(m0, d, 0);
      PutSum(m0, d, 0, IntValue);
      Put(m0, d, 0)
  }

  /** `perDay`: a Map from each day of the month to 0, then each attended
      price added to its date's entry, read out as `{date, sum}` pairs in
      the Map's order. Each entry holds its day's revenue, the entries
      together hold all of it, and when the days are distinct the entries
      start with them in order; when every date is one of the days there
      is exactly one entry per day. */
  method PerDay(days: seq<string>, attended: seq<StatAppt>) returns (perDay: seq<(string, int)>)
    ensures DistinctKeys(perDay)
    ensures forall d :: Get(perDay, d).Some? <==> d in days || d in Dates(attended)
    ensures forall d :: Get(perDay, d).GetOr(0) == DayRevenue(attended, d)
    ensures SumBy(Values(perDay), IntValue) == SumBy(attended, Price)
    ensures Distinct(days) ==> |days| <= |perDay| && forall i :: 0 <= i < |days| ==> perDay[i].0 == days[i]
    ensures Distinct(days) && DatesIn(attended, days) ==> |perDay| == |days|
  {
    var m := ZeroMap(days);
    assert DayMapOf(m, days, attended[..0]);
    for j := 0 to |attended|
      invariant DayMapOf(m, days, attended[..j])
      invariant Distinct(days) ==> StartsWithDays(m, days)
      invariant Distinct(days) && DatesIn(attended, days) ==> |m| == |days|
    {
      var a := attended[j];
      DayStep(m, days, attended[..j], a);
      assert attended[..j + 1] == attended[..j] + [a];
      m := DayPut(m, a);
    }
    assert attended[..|attended|] == attended;
    perDay := m;
  }

  // ---------------------------------------------------------------------
  // The day tooltip

  datatype DayStats = DayStats(dateStr: string, visits: nat, revenue: int, minutes: Num, noShow: nat)

  function AttendedOn(d: string): StatAppt -> bool {
    (a: StatAppt) => a.date == d && a.status == Attended
  }

  function NoShowOn(d: string): StatAppt -> bool {
    (a: StatAppt) => a.date == d && a.status == NoShow
  }

  /** `computeDayStats(dateStr)`, over `filtered` (not only the attended
      ones: the no-shows of the day are counted too). */
  function ComputeDayStats(filtered: seq<StatAppt>, d: string): (r: DayStats)
    ensures r.dateStr == d
    ensures r.visits + r.noShow <= |filtered|
    ensures r.minutes.Int? ==> r.minutes.v >= 0
  {
    var dayAtt := Filter(filtered, AttendedOn(d));
    var dayNoShow := Filter(filtered, NoShowOn(d));
    assert |dayAtt| + |dayNoShow| <= |filtered| by {
      FilterDisjoint(filtered, AttendedOn(d), NoShowOn(d));
    }
    DayStats(d, |dayAtt|, SumBy(dayAtt, Price), MinutesSum(dayAtt), |dayNoShow|)
  }

  /** Two filters that never both hold keep at most the whole list. */
  lemma {:induction false} FilterDisjoint(s: seq<StatAppt>, p: StatAppt -> bool, q: StatAppt -> bool)
    requires forall a :: !(p(a) && q(a))
    ensures |Filter(s, p)| + |Filter(s, q)| <= |s|
  {
    if s != [] {
      FilterDisjoint(s[1..], p, q);
    }
  }

  /** The tooltip of a day bar agrees with the bar: its revenue is the
      entry `perDay` holds for that day, and its visits and minutes are
      those of the day's attended appointments. */
  lemma DayStatsMatchBar(filtered: seq<StatAppt>, d: string)
    ensures ComputeDayStats(filtered, d).revenue == DayRevenue(AttendedOf(filtered), d)
    ensures ComputeDayStats(filtered, d).visits == |Filter(AttendedOf(filtered), OnDate(d))|
    ensures ComputeDayStats(filtered, d).minutes == MinutesSum(Filter(AttendedOf(filtered), OnDate(d)))
  {
    FilterFilter(filtered, OnDate(d), IsAttended, AttendedOn(d));
  }

  // ---------------------------------------------------------------------
  // Categories

  datatype CatTotal = CatTotal(cat: string, revenue: int, cnt: nat)

  function Rev(x: CatTotal): int {
    x.revenue
  }

  function Cnt(x: CatTotal): int {
    x.cnt
  }

  /** `(a, b) => b.revenue - a.revenue`, as "may precede". */
  predicate ByRevenueDesc(x: CatTotal, y: CatTotal) {
    y.revenue - x.revenue <= 0
  }

  predicate OtherCat(x: CatTotal, y: CatTotal) {
    x.cat != y.cat
  }

  /** The revenue of the appointments of category `c` in `s`. */
  function CatRevenue(s: seq<StatAppt>, c: string): int {
    if s == [] then 0
    else CatRevenue(s[..|s| - 1], c) + (if ApptCategory(s[|s| - 1]) == c then Price(s[|s| - 1]) else 0)
  }

  /** How many appointments of `s` are of category `c`. */
  function CatCount(s: seq<StatAppt>, c: string): nat {
    if s == [] then 0
    else CatCount(s[..|s| - 1], c) + (if ApptCategory(s[|s| - 1]) == c then 1 else 0)
  }

  function Cats(s: seq<StatAppt>): (r: seq<string>)
    ensures |r| == |s| && forall i :: 0 <= i < |s| ==> r[i] == ApptCategory(s[i])
  {
    seq(|s|, i requires 0 <= i < |s| => ApptCategory(s[i]))
  }

  lemma CatSnoc(s: seq<StatAppt>, a: StatAppt, c: string)
    ensures CatRevenue(s + [a], c) == CatRevenue(s, c) + (if ApptCategory(a) == c then Price(a) else 0)
    ensures CatCount(s + [a], c) == CatCount(s, c) + (if ApptCategory(a) == c then 1 else 0)
  {
    assert (s + [a])[..|s|] == s;
  }

  lemma PriceSnoc(s: seq<StatAppt>, a: StatAppt)
    ensures SumBy(s + [a], Price) == SumBy(s, Price) + Price(a)
  {
    SumByAppend(s, [a], Price);
    assert [a][1..] == [];
  }

  /** The running aggregate of the attended prefix `s` in Map `agg`. */
  ghost predicate AggOf(agg: seq<(string, CatTotal)>, s: seq<StatAppt>) {
    DistinctKeys(agg)
    && (forall c :: Get(agg, c).Some? <==> c in Cats(s))
    && (forall c :: Get(agg, c).GetOr(CatTotal(c, 0, 0)) == CatTotal(c, CatRevenue(s, c), CatCount(s, c)))
    && SumBy(Values(agg), Cnt) == |s|
  }

  /** One `forEach` step of `categoryAgg`: the entry of the category of
      `a` gains its price and one visit. */
  function AggPut(agg: seq<(string, CatTotal)>, a: StatAppt): seq<(string, CatTotal)> {
    var cat := ApptCategory(a);
    var prev := Get(agg, cat).GetOr(CatTotal(cat, 0, 0));
    Put(agg, cat, CatTotal(cat, prev.revenue + Price(a), prev.cnt + 1))
  }

  lemma AggStepKeys(agg: seq<(string, CatTotal)>, s: seq<StatAppt>, a: StatAppt)
    requires DistinctKeys(agg)
    requires forall c :: Get(agg, c).Some? <==> c in Cats(s)
    ensures DistinctKeys(AggPut(agg, a))
    ensures forall c :: Get(AggPut(agg, a), c).Some? <==> c in Cats(s + [a])
  {
    var cat := ApptCategory(a);
    var prev := Get(agg, cat).GetOr(CatTotal(cat, 0, 0));
    PutFacts(agg, cat, CatTotal(cat, prev.revenue + Price(a), prev.cnt + 1));
    assert Cats(s + [a]) == Cats(s) + [cat];
  }

  lemma AggStepEntries(agg: seq<(string, CatTotal)>, s: seq<StatAppt>, a: StatAppt)
    requires DistinctKeys(agg)
    requires forall c :: Get(agg, c).GetOr(CatTotal(c, 0, 0)) == CatTotal(c, CatRevenue(s, c), CatCount(s, c))
    ensures forall c ::
      Get(AggPut(agg, a), c).GetOr(CatTotal(c, 0, 0)) == CatTotal(c, CatRevenue(s + [a], c), CatCount(s + [a], c))
  {
    var cat := ApptCategory(a);
    var prev := Get(agg, cat).GetOr(CatTotal(cat, 0, 0));
    var nv := CatTotal(cat, prev.revenue + Price(a), prev.cnt + 1);
    var m := AggPut(agg, a);
    assert m == Put(agg, cat, nv);
    PutFacts(agg, cat, nv);
    assert prev == CatTotal(cat, CatRevenue(s, cat), CatCount(s, cat));
    forall c ensures Get(m, c).GetOr(CatTotal(c, 0, 0)) == CatTotal(c, CatRevenue(s + [a], c), CatCount(s + [a], c)) {
      CatSnoc(s, a, c);
      if c == cat {
        assert Get(m, c) == Some(nv);
      } else {
        assert Get(m, c) == Get(agg, c);
      }
    }
  }

  lemma AggStepSums(agg: seq<(string, CatTotal)>, a: StatAppt)
    requires DistinctKeys(agg)
    ensures SumBy(Values(AggPut(agg, a)), Cnt) == SumBy(Values(agg), Cnt) + 1
    ensures SumBy(Values(AggPut(agg, a)), Rev) == SumBy(Values(agg), Rev) + Price(a)
  {
    var cat := ApptCategory(a);
    var prev := Get(agg, cat).GetOr(CatTotal(cat, 0, 0));
    var nv := CatTotal(cat, prev.revenue + Price(a), prev.cnt + 1);
    PutSum(agg, cat, nv, Cnt);
    PutSum(agg, cat, nv, Rev);
  }

  lemma AggStep(agg: seq<(string, CatTotal)>, s: seq<StatAppt>, a: StatAppt)
    requires AggOf(agg, s)
    ensures AggOf(AggPut(agg, a), s + [a])
    ensures SumBy(Values(AggPut(agg, a)), Rev) == SumBy(Values(agg), Rev) + Price(a)
  {
    AggStepKeys(agg, s, a);
    AggStepEntries(agg, s, a);
    AggStepSums(agg, a);
  }

  /** Each value of the Map is its key's aggregate. */
  lemma AggValues(agg: seq<(string, CatTotal)>, s: seq<StatAppt>, i: nat)
    requires AggOf(agg, s) && i < |agg|
    ensures Values(agg)[i] == CatTotal(agg[i].0, CatRevenue(s, agg[i].0), CatCount(s, agg[i].0))
  {
    GetAt(agg, i);
  }

  /** The category table of the attended appointments `s`: sorted by
      revenue from the largest, one entry per category met and no other,
      each with that category's revenue and visit count; the counts add
      up to the visits. */
  ghost predicate CatTable(arr: seq<CatTotal>, s: seq<StatAppt>) {
    Sorted(arr, ByRevenueDesc)
    && SumBy(arr, Cnt) == |s|
    && (forall i :: 0 <= i < |arr| ==>
         arr[i] == CatTotal(arr[i].cat, CatRevenue(s, arr[i].cat), CatCount(s, arr[i].cat))
         && arr[i].cat in Cats(s))
    && (forall c :: c in Cats(s) ==> exists i :: 0 <= i < |arr| && arr[i].cat == c)
    && (forall i, j :: 0 <= i < j < |arr| ==> arr[i].cat != arr[j].cat)
  }

  /** The `forEach` of `categoryAgg`: the Map from category to
      `{cat, revenue, cnt}` and the running `total`, filled in one pass;
      the revenues in the Map add up to `total`. */
  method CategoryMap(attended: seq<StatAppt>) returns (agg: seq<(string, CatTotal)>, total: int)
    ensures AggOf(agg, attended)
    ensures total == SumBy(attended, Price)
    ensures SumBy(Values(agg), Rev) == total
  {
    agg := [];
    total := 0;
    for j := 0 to |attended|
      invariant AggOf(agg, attended[..j])
      invariant total == SumBy(attended[..j], Price)
      invariant SumBy(Values(agg), Rev) == total
    {
      var a := attended[j];
      total := total + Price(a);
      AggStep(agg, attended[..j], a);
      PriceSnoc(attended[..j], a);
      assert attended[..j + 1] == attended[..j] + [a];
      agg := AggPut(agg, a);
    }
    assert attended[..|attended|] == attended;
  }

  /** `categoryAgg`: the Map's values sorted by revenue from the largest,
      and the whole attended revenue `total`, which the table's revenues
      add up to. */
  method CategoryAgg(attended: seq<StatAppt>) returns (arr: seq<CatTotal>, total: int)
    ensures total == SumBy(attended, Price)
    ensures SumBy(arr, Rev) == total
    ensures CatTable(arr, attended)
  {
    var agg;
    agg, total := CategoryMap(attended);
    arr := SortBy(Values(agg), ByRevenueDesc);
    SortedAggFacts(agg, attended);
  }

  /** What the sorted copy of the finished Map's values holds. */
  lemma SortedAggFacts(agg: seq<(string, CatTotal)>, s: seq<StatAppt>)
    requires AggOf(agg, s)
    ensures CatTable(SortBy(Values(agg), ByRevenueDesc), s)
    ensures SumBy(SortBy(Values(agg), ByRevenueDesc), Rev) == SumBy(Values(agg), Rev)
  {
    var vals := Values(agg);
    SortBySorted(vals, ByRevenueDesc);
    SortBySum(vals, ByRevenueDesc, Cnt);
    SortBySum(vals, ByRevenueDesc, Rev);
    AggEntries(agg, s);
    SortedEntries(agg, s, SortBy(vals, ByRevenueDesc));
    SortedCovers(agg, s, SortBy(vals, ByRevenueDesc));
    SortByPairwise(vals, ByRevenueDesc, OtherCat);
  }

  /** Categories with the same revenue keep the Map's order after the
      sort, as the stable `sort` keeps them. */
  lemma SameRevenueKeepsOrder(vals: seq<CatTotal>, v: int)
    ensures Filter(SortBy(vals, ByRevenueDesc), (x: CatTotal) => x.revenue == v) == Filter(vals, (x: CatTotal) => x.revenue == v)
  {
    SortByStable(vals, ByRevenueDesc, (x: CatTotal) => x.revenue == v);
  }

  /** Each value is its key's aggregate, so the values' categories are
      the distinct keys. */
  lemma AggEntries(agg: seq<(string, CatTotal)>, s: seq<StatAppt>)
    requires AggOf(agg, s)
    ensures forall i :: 0 <= i < |agg| ==>
      Values(agg)[i] == CatTotal(agg[i].0, CatRevenue(s, agg[i].0), CatCount(s, agg[i].0))
    ensures Pairwise(Values(agg), OtherCat)
  {
    forall i | 0 <= i < |agg|
      ensures Values(agg)[i] == CatTotal(agg[i].0, CatRevenue(s, agg[i].0), CatCount(s, agg[i].0))
    {
      AggValues(agg, s, i);
    }
  }

  /** Any reordering of the values holds the same aggregates. */
  lemma SortedEntries(agg: seq<(string, CatTotal)>, s: seq<StatAppt>, arr: seq<CatTotal>)
    requires AggOf(agg, s)
    requires forall i :: 0 <= i < |agg| ==>
      Values(agg)[i] == CatTotal(agg[i].0, CatRevenue(s, agg[i].0), CatCount(s, agg[i].0))
    requires multiset(arr) == multiset(Values(agg))
    ensures forall i :: 0 <= i < |arr| ==>
      arr[i] == CatTotal(arr[i].cat, CatRevenue(s, arr[i].cat), CatCount(s, arr[i].cat))
      && arr[i].cat in Cats(s)
  {
    var vals := Values(agg);
    forall i | 0 <= i < |arr|
      ensures arr[i] == CatTotal(arr[i].cat, CatRevenue(s, arr[i].cat), CatCount(s, arr[i].cat))
      ensures arr[i].cat in Cats(s)
    {
      assert arr[i] in multiset(vals);
      var k :| 0 <= k < |vals| && vals[k] == arr[i];
      GetAt(agg, k);
    }
  }

  /** Any reordering of the values has an entry for each category met. */
  lemma SortedCovers(agg: seq<(string, CatTotal)>, s: seq<StatAppt>, arr: seq<CatTotal>)
    requires forall c :: Get(agg, c).Some? <==> c in Cats(s)
    requires forall i :: 0 <= i < |agg| ==> Values(agg)[i].cat == agg[i].0
    requires multiset(arr) == multiset(Values(agg))
    ensures forall c :: c in Cats(s) ==> exists i :: 0 <= i < |arr| && arr[i].cat == c
  {
    var vals := Values(agg);
    forall c | c in Cats(s) ensures exists i :: 0 <= i < |arr| && arr[i].cat == c {
      assert Get(agg, c).Some?;
      var k := IndexOf(agg, c);
      assert vals[k].cat == c;
      assert vals[k] in multiset(arr);
      var i :| 0 <= i < |arr| && arr[i] == vals[k];
    }
  }

  /** In a list sorted by revenue from the largest, an earlier entry has
      at least the revenue of a later one. */
  lemma {:induction false} SortedDescending(arr: seq<CatTotal>, i: nat, j: nat)
    requires Sorted(arr, ByRevenueDesc) && i <= j < |arr|
    ensures arr[i].revenue >= arr[j].revenue
    decreases j - i
  {
    if i < j {
      SortedDescending(arr, i + 1, j);
      assert ByRevenueDesc(arr[i], arr[i + 1]);
    }
  }

  /** `categoryAgg.arr.slice(0, 6)` */
  function TopCats(arr: seq<CatTotal>): (r: seq<CatTotal>)
    ensures |r| == if |arr| < 6 then |arr| else 6
    ensures r == arr[..|r|]
  {
    arr[..if |arr| < 6 then |arr| else 6]
  }

  /** On the sorted table, the top entries are the six (or fewer) largest:
      none left out has more revenue than one shown. */
  lemma TopCatsAreLargest(arr: seq<CatTotal>)
    requires Sorted(arr, ByRevenueDesc)
    ensures forall i, j :: 0 <= i < |TopCats(arr)| <= j < |arr| ==> TopCats(arr)[i].revenue >= arr[j].revenue
    ensures |arr| <= 6 ==> TopCats(arr) == arr
  {
    forall i, j | 0 <= i < |TopCats(arr)| <= j < |arr| ensures TopCats(arr)[i].revenue >= arr[j].revenue {
      SortedDescending(arr, i, j);
    }
  }
}
