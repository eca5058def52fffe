/** The service catalogue page: colour and price checks, the catalogue
    order, the search filter, the rows of the "create" form, the payloads
    of a new category and its sub-services, the edit form, and the list
    the page keeps. */
module SettingsServices {

  import opened Optional
  import opened Strings
  import opened TimeText
  import opened PriceText
  import opened Records
  import opened Sorting
  import opened Lists

  const DefaultGray: string := "#e5e7eb"

  // ---------------------------------------------------------------------
  // Colours

  predicate IsHexDigit(c: char) {
    '0' <= c <= '9' || 'a' <= c <= 'f' || 'A' <= c <= 'F'
  }

  /** `validHex`: empty (the default grey), or `#` and exactly three or
      six hexadecimal digits. */
  predicate ValidHex(v: string) {
    v == "" ||
    ((|v| == 4 || |v| == 7) && v[0] == '#' && forall i | 1 <= i < |v| :: IsHexDigit(v[i]))
  }

  /** A valid colour has no surrounding white space, so checking the
      normalised text or the raw one agrees on it; the grey of the
      calendar is a valid colour. */
  lemma ValidHexIsNormal(v: string)
    requires ValidHex(v)
    ensures Trim(v) == v && ValidHex(Norm(Some(v)))
  {
    TrimUnpadded(v);
  }

  /** The grey of the calendar is a colour the forms accept. */
  lemma DefaultGrayValid()
    ensures ValidHex(DefaultGray)
  {
    assert |DefaultGray| == 7 && DefaultGray[0] == '#';
    forall i | 1 <= i < 7 ensures IsHexDigit(DefaultGray[i]) {
      assert DefaultGray[i] in "e5e7eb" by {
        assert DefaultGray[i] == DefaultGray[1..][i - 1];
      }
    }
  }

  /** A colour of any other length, or without the leading `#`, is refused. */
  lemma ValidHexShape(v: string)
    requires v != "" && ValidHex(v)
    ensures v[0] == '#' && (|v| == 4 || |v| == 7)
    ensures !ValidHex(v[1..]) && !ValidHex(v + "0")
  {
    assert v[1..] != "";
    if |v| == 4 {
      assert |v[1..]| == 3;
    } else {
      assert |v[1..]| == 6;
    }
    assert |v + "0"| == |v| + 1;
  }

  // ---------------------------------------------------------------------
  // The catalogue order

  /** `localeCompare`, given: any function to integers. */
  type Collate = (string, string) -> int

  /** A comparison that never puts two texts after each other both ways. */
  ghost predicate Comparator(collate: Collate) {
    forall x, y :: collate(x, y) <= 0 || collate(y, x) <= 0
  }

  function CategoryKey(s: Service): string {
    Lower(Norm(Some(s.category)))
  }

  function NameKey(s: Service): string {
    Lower(Norm(s.name))
  }

  /** `byCatThenName`: by the trimmed, lower-cased category; within a
      category the category row (empty name) first; then by name. */
  function ByCatThenName(a: Service, b: Service, collate: Collate): int {
    ByKeys(CategoryKey(a), CategoryKey(b), NameKey(a), NameKey(b), collate)
  }

  /** The comparison on the keys of two rows. */
  function ByKeys(ac: string, bc: string, an: string, bn: string, collate: Collate): int {
    if ac != bc then collate(ac, bc)
    else if an == "" && bn != "" then -1
    else if an != "" && bn == "" then 1
    else collate(an, bn)
  }

  /** `next.sort(byCatThenName)`: `a` may stay before `b`. */
  function CatalogueLe(collate: Collate): (Service, Service) -> bool {
    (a: Service, b: Service) => ByCatThenName(a, b, collate) <= 0
  }

  lemma KeysTotal(ac: string, bc: string, an: string, bn: string, collate: Collate)
    requires Comparator(collate)
    ensures ByKeys(ac, bc, an, bn, collate) <= 0 || ByKeys(bc, ac, bn, an, collate) <= 0
  {
    assert collate(ac, bc) <= 0 || collate(bc, ac) <= 0;
    assert collate(an, bn) <= 0 || collate(bn, an) <= 0;
  }

  /** A comparator makes the catalogue order total, so the sorted copy is
      in order; and within one category the category row comes first. */
  lemma CatalogueOrder(collate: Collate)
    requires Comparator(collate)
    ensures Total(CatalogueLe(collate))
    ensures forall a, b :: CategoryKey(a) == CategoryKey(b) && NameKey(a) == "" && NameKey(b) != "" ==>
      CatalogueLe(collate)(a, b) && !CatalogueLe(collate)(b, a)
    ensures forall a, b :: CategoryKey(a) != CategoryKey(b) ==>
      (CatalogueLe(collate)(a, b) <==> collate(CategoryKey(a), CategoryKey(b)) <= 0)
  {
    forall a: Service, b: Service ensures CatalogueLe(collate)(a, b) || CatalogueLe(collate)(b, a) {
      KeysTotal(CategoryKey(a), CategoryKey(b), NameKey(a), NameKey(b), collate);
    }
  }

  // ---------------------------------------------------------------------
  // Search

  /** `(x.category || "").toLowerCase().includes(s) || (x.name || "")...` */
  predicate Matches(x: Service, s: string) {
    Contains(Lower(x.category), s) || Contains(Lower(x.name.GetOr("")), s)
  }

  /** `filtered`: the rows whose category or name contains the lower-cased
      query. */
  function Filtered(list: seq<Service>, query: string): (r: seq<Service>)
    ensures forall x :: x in r <==> x in list && Matches(x, Lower(query))
  {
    Filter(list, (x: Service) => Matches(x, Lower(query)))
  }

  /** An empty query keeps the whole list, in its order. */
  lemma EmptyQueryKeepsAll(list: seq<Service>)
    ensures Filtered(list, "") == list
  {
    forall i | 0 <= i < |list| ensures Matches(list[i], Lower("")) {
      ContainsEmpty(Lower(list[i].category));
    }
    FilterAll(list, (x: Service) => Matches(x, Lower("")));
  }

  // ---------------------------------------------------------------------
  // The rows of the "create" form

  /** One sub-service row of the form, as typed. */
  datatype Row = Row(name: string, price: string, color: string)

  const EmptyRow: Row := Row("", "", "")

  /** `{...row, ...patch}`: the fields the patch carries replace the row's. */
  datatype RowPatch = RowPatch(name: Option<string>, price: Option<string>, color: Option<string>)

  function Patch(row: Row, patch: RowPatch): Row {
    Row(patch.name.GetOr(row.name), patch.price.GetOr(row.price), patch.color.GetOr(row.color))
  }

  /** `r.filter((_, idx) => idx !== i)` */
  function RemoveAt(rows: seq<Row>, i: int): (r: seq<Row>)
    ensures 0 <= i < |rows| ==> |r| == |rows| - 1
    ensures 0 <= i < |rows| ==> forall k :: 0 <= k < |r| ==> r[k] == if k < i then rows[k] else rows[k + 1]
    ensures !(0 <= i < |rows|) ==> r == rows
  {
    if 0 <= i < |rows| then rows[..i] + rows[i + 1..] else rows
  }

  /** `r.map((row, idx) => idx === i ? {...row, ...patch} : row)` */
  function PatchAt(rows: seq<Row>, i: int, patch: RowPatch): (r: seq<Row>)
    ensures |r| == |rows|
    ensures forall k :: 0 <= k < |rows| ==> r[k] == if k == i then Patch(rows[k], patch) else rows[k]
  {
    seq(|rows|, k requires 0 <= k < |rows| => if k == i then Patch(rows[k], patch) else rows[k])
  }

  /** The state of the "create" form. */
  class CreateForm {
    var catName: string
    var categoryPrice: string
    var categoryColor: string
    var excludeFromStats: bool
    var rows: seq<Row>

    /** The form as `resetCreateForm` leaves it: one empty row. */
    constructor ()
      ensures catName == "" && categoryPrice == "" && categoryColor == ""
      ensures !excludeFromStats && rows == [EmptyRow]
    {
      catName, categoryPrice, categoryColor := "", "", "";
      excludeFromStats := false;
      rows := [EmptyRow];
    }

    /** `resetCreateForm` */
    method Reset()
      modifies this
      ensures catName == "" && categoryPrice == "" && categoryColor == ""
      ensures !excludeFromStats && rows == [EmptyRow]
    {
      catName, categoryPrice, categoryColor := "", "", "";
      excludeFromStats := false;
      rows := [EmptyRow];
    }

    /** `addRow`: one empty row more at the end. */
    method AddRow()
      modifies this
      ensures rows == old(rows) + [EmptyRow]
      ensures catName == old(catName) && categoryPrice == old(categoryPrice)
      ensures categoryColor == old(categoryColor) && excludeFromStats == old(excludeFromStats)
    {
      rows := rows + [EmptyRow];
    }

    /** `removeRow`: after the confirmation, only row `i` is dropped. */
    method RemoveRow(i: int, confirmed: bool)
      modifies this
      ensures rows == if confirmed then RemoveAt(old(rows), i) else old(rows)
      ensures catName == old(catName) && categoryPrice == old(categoryPrice)
      ensures categoryColor == old(categoryColor) && excludeFromStats == old(excludeFromStats)
    {
      if confirmed {
        rows := RemoveAt(rows, i);
      }
    }

    /** `setRow`: only row `i` changes. */
    method SetRow(i: int, patch: RowPatch)
      modifies this
      ensures rows == PatchAt(old(rows), i, patch)
      ensures catName == old(catName) && categoryPrice == old(categoryPrice)
      ensures categoryColor == old(categoryColor) && excludeFromStats == old(excludeFromStats)
    {
      rows := PatchAt(rows, i, patch);
    }
  }

  // ---------------------------------------------------------------------
  // Validating a new category

  /** The row with every field normalised. */
  function NormRow(r: Row): Row {
    Row(Norm(Some(r.name)), Norm(Some(r.price)), Norm(Some(r.color)))
  }

  function NormRows(rows: seq<Row>): (r: seq<Row>)
    ensures |r| == |rows| && forall k :: 0 <= k < |rows| ==> r[k] == NormRow(rows[k])
  {
    seq(|rows|, k requires 0 <= k < |rows| => NormRow(rows[k]))
  }

  predicate Named(r: Row) {
    r.name != ""
  }

  /** The sub-services to create: the normalised rows with a name, in order. */
  function Subs(rows: seq<Row>): seq<Row> {
    Filter(NormRows(rows), Named)
  }

  /** `rows.map(r => norm(r.name)).filter(n => n.length > 0)` */
  function SubNames(rows: seq<Row>): (r: seq<string>)
    ensures |r| == |Subs(rows)| && forall k :: 0 <= k < |r| ==> r[k] == Subs(rows)[k].name
  {
    var ss := Subs(rows);
    seq(|ss|, k requires 0 <= k < |ss| => ss[k].name)
  }

  lemma SubNameFrom(rows: seq<Row>, j: nat)
    requires j < |SubNames(rows)|
    ensures SubNames(rows)[j] != "" && exists k :: 0 <= k < |rows| && Norm(Some(rows[k].name)) == SubNames(rows)[j]
  {
    var ns := NormRows(rows);
    var ss := Subs(rows);
    assert Named(ss[j]) && ss[j] in ns;
    var k :| 0 <= k < |ns| && ns[k] == ss[j];
    assert Norm(Some(rows[k].name)) == ss[j].name;
  }

  lemma NameInSubNames(rows: seq<Row>, k: nat)
    requires k < |rows| && Norm(Some(rows[k].name)) != ""
    ensures Norm(Some(rows[k].name)) in SubNames(rows)
  {
    var ns := NormRows(rows);
    var ss := Subs(rows);
    assert Named(ns[k]);
    assert ns[k] in ss;
    var j :| 0 <= j < |ss| && ss[j] == ns[k];
    assert SubNames(rows)[j] == Norm(Some(rows[k].name));
  }

  /** The sub-service names are exactly the non-empty normalised names. */
  lemma SubNamesOf(rows: seq<Row>)
    ensures forall n :: n in SubNames(rows) <==> n != "" && exists k :: 0 <= k < |rows| && Norm(Some(rows[k].name)) == n
  {
    forall n | n in SubNames(rows) ensures n != "" && exists k :: 0 <= k < |rows| && Norm(Some(rows[k].name)) == n {
      var j :| 0 <= j < |SubNames(rows)| && SubNames(rows)[j] == n;
      SubNameFrom(rows, j);
    }
    forall n | n != "" && exists k :: 0 <= k < |rows| && Norm(Some(rows[k].name)) == n ensures n in SubNames(rows) {
      var k :| 0 <= k < |rows| && Norm(Some(rows[k].name)) == n;
      NameInSubNames(rows, k);
    }
  }

  /** `subs.find((n, i) => subs.indexOf(n) !== i)`: the first name that
      already occurred earlier. */
  function FirstDuplicate(subs: seq<string>): (r: Option<string>)
  {
    DuplicateFrom(subs, 0)
  }

  function DuplicateFrom(subs: seq<string>, i: nat): Option<string>
    requires i <= |subs|
    decreases |subs| - i
  {
    if i == |subs| then None
    else if FindIndex(subs, (n: string) => n, subs[i]) != i then Some(subs[i])
    else DuplicateFrom(subs, i + 1)
  }

  /** The search from position `i` reports nothing exactly when no name
      from `i` on occurred before; what it reports occurs twice. */
  lemma {:induction false} DuplicateFromFacts(subs: seq<string>, i: nat)
    requires i <= |subs|
    ensures DuplicateFrom(subs, i).None? <==> forall a, b | 0 <= a < b < |subs| && b >= i :: subs[a] != subs[b]
    ensures DuplicateFrom(subs, i).Some? ==>
      exists a, b :: 0 <= a < b < |subs| && subs[a] == subs[b] == DuplicateFrom(subs, i).value
    decreases |subs| - i
  {
    if i < |subs| {
      var f := FindIndex(subs, (n: string) => n, subs[i]);
      if f != i {
        assert f < i;
        assert subs[f] == subs[i];
      } else {
        DuplicateFromFacts(subs, i + 1);
        forall a | 0 <= a < i ensures subs[a] != subs[i] {
        }
      }
    }
  }

  /** No duplicate is reported iff the names are distinct; a reported
      name occurs at least twice. */
  lemma FirstDuplicateFacts(subs: seq<string>)
    ensures FirstDuplicate(subs).None? <==> Distinct(subs)
    ensures FirstDuplicate(subs).Some? ==>
      exists a, b :: 0 <= a < b < |subs| && subs[a] == subs[b] == FirstDuplicate(subs).value
  {
    DuplicateFromFacts(subs, 0);
  }

  /** The outcome of `validateCreate`. */
  datatype CreateCheck =
    | CreateOk
    | NoCategoryName
    | BadCategoryColor
    | NegativeCategoryPrice
    | DuplicateSub(name: string)
    | BadSubColor(rowName: string)
    | NegativeSubPrice(rowName: string)

  /** `norm(r.name) || "—"`, how a row is named in a message. */
  function RowLabel(r: Row): string {
    if Norm(Some(r.name)) != "" then Norm(Some(r.name)) else "—"
  }

  /** `norm(r.price) !== "" && Number(r.price) < 0` */
  predicate RowBadPrice(r: Row) {
    Norm(Some(r.price)) != "" && IsNegative(r.price)
  }

  /** The row check of the loop, or nothing when the row is fine. */
  function RowProblem(r: Row): Option<CreateCheck> {
    if !ValidHex(Norm(Some(r.color))) then Some(BadSubColor(RowLabel(r)))
    else if RowBadPrice(r) then Some(NegativeSubPrice(RowLabel(r)))
    else None
  }

  /** The first problem of the rows, in row order; every row counts, named
      or not. */
  function FirstRowProblem(rows: seq<Row>): (r: Option<CreateCheck>)
    ensures r.None? <==> forall k :: 0 <= k < |rows| ==> RowProblem(rows[k]).None?
    ensures r.Some? ==> r.value.BadSubColor? || r.value.NegativeSubPrice?
  {
    if rows == [] then None
    else if RowProblem(rows[0]).Some? then RowProblem(rows[0])
    else
      assert forall k :: 1 <= k < |rows| ==> rows[k] == rows[1..][k - 1];
      FirstRowProblem(rows[1..])
  }

  /** What `validateCreate` answers. */
  function CreateVerdict(catName: string, categoryPrice: string, categoryColor: string, rows: seq<Row>): CreateCheck {
    if Norm(Some(catName)) == "" then NoCategoryName
    else if !ValidHex(categoryColor) then BadCategoryColor
    else if BadPrice(categoryPrice) then NegativeCategoryPrice
    else if FirstDuplicate(SubNames(rows)).Some? then DuplicateSub(FirstDuplicate(SubNames(rows)).value)
    else if FirstRowProblem(rows).Some? then FirstRowProblem(rows).value
    else CreateOk
  }

  /** `validateCreate`: the category checks, the duplicate check, then a
      loop over the rows that returns at the first bad one. */
  method ValidateCreate(catName: string, categoryPrice: string, categoryColor: string, rows: seq<Row>)
    returns (r: CreateCheck)
    ensures r == CreateVerdict(catName, categoryPrice, categoryColor, rows)
  {
    var category := Norm(Some(catName));
    if category == "" {
      return NoCategoryName;
    }
    if !ValidHex(categoryColor) {
      return BadCategoryColor;
    }
    if categoryPrice != "" && IsNegative(categoryPrice) {
      return NegativeCategoryPrice;
    }
    var dup := FirstDuplicate(SubNames(rows));
    if dup.Some? {
      return DuplicateSub(dup.value);
    }
    var i := 0;
    while i < |rows|
      invariant 0 <= i <= |rows|
      invariant FirstRowProblem(rows) == FirstRowProblem(rows[i..])
    {
      var row := rows[i];
      assert rows[i..][0] == row && rows[i..][1..] == rows[i + 1..];
      if !ValidHex(Norm(Some(row.color))) {
        return BadSubColor(RowLabel(row));
      }
      if Norm(Some(row.price)) != "" && IsNegative(row.price) {
        return NegativeSubPrice(RowLabel(row));
      }
      i := i + 1;
    }
    return CreateOk;
  }

  /** A row the loop lets pass: an acceptable colour and price. */
  predicate RowOk(r: Row) {
    ValidHex(Norm(Some(r.color))) && !RowBadPrice(r)
  }

  lemma RowProblemNone(rows: seq<Row>)
    ensures FirstRowProblem(rows).None? <==> forall k :: 0 <= k < |rows| ==> RowOk(rows[k])
  {
    assert forall k :: 0 <= k < |rows| ==> (RowProblem(rows[k]).None? <==> RowOk(rows[k]));
  }

  /** A new category is accepted exactly when its name is non-blank, its
      colour and price are acceptable, no sub-service name repeats, and
      every row has an acceptable colour and price. */
  lemma CreateVerdictOk(catName: string, categoryPrice: string, categoryColor: string, rows: seq<Row>)
    ensures CreateVerdict(catName, categoryPrice, categoryColor, rows) == CreateOk <==>
      && Norm(Some(catName)) != ""
      && ValidHex(categoryColor)
      && !BadPrice(categoryPrice)
      && Distinct(SubNames(rows))
      && forall k :: 0 <= k < |rows| ==> RowOk(rows[k])
  {
    FirstDuplicateFacts(SubNames(rows));
    RowProblemNone(rows);
  }

  /** Every sub-service name is non-empty. */
  lemma SubNamesNonEmpty(rows: seq<Row>)
    ensures forall k :: 0 <= k < |SubNames(rows)| ==> SubNames(rows)[k] != ""
  {
    var ss := Subs(rows);
    assert forall k :: 0 <= k < |ss| ==> Named(ss[k]);
  }

  /** The duplicate the search finds is a non-empty name two rows share. */
  lemma DuplicateFound(rows: seq<Row>)
    requires FirstDuplicate(SubNames(rows)).Some?
    ensures var d := FirstDuplicate(SubNames(rows)).value;
      d != "" && exists a, b :: 0 <= a < b < |SubNames(rows)| && SubNames(rows)[a] == SubNames(rows)[b] == d
  {
    FirstDuplicateFacts(SubNames(rows));
    SubNamesNonEmpty(rows);
  }

  /** The name a duplicate verdict reports is the one the search found. */
  lemma DuplicateVerdictName(catName: string, categoryPrice: string, categoryColor: string, rows: seq<Row>)
    requires CreateVerdict(catName, categoryPrice, categoryColor, rows).DuplicateSub?
    ensures FirstDuplicate(SubNames(rows)).Some?
    ensures CreateVerdict(catName, categoryPrice, categoryColor, rows).name == FirstDuplicate(SubNames(rows)).value
  {
  }

  /** A reported duplicate is a non-empty name two rows share. */
  lemma DuplicateReported(catName: string, categoryPrice: string, categoryColor: string, rows: seq<Row>)
    requires CreateVerdict(catName, categoryPrice, categoryColor, rows).DuplicateSub?
    ensures var d := CreateVerdict(catName, categoryPrice, categoryColor, rows).name;
      d != "" && exists a, b :: 0 <= a < b < |SubNames(rows)| && SubNames(rows)[a] == SubNames(rows)[b] == d
  {
    DuplicateVerdictName(catName, categoryPrice, categoryColor, rows);
    DuplicateFound(rows);
  }

  /** A row price is refused exactly when the form's general price check
      refuses it: a blank price is never negative. */
  lemma RowBadPriceIsBadPrice(r: Row)
    ensures RowBadPrice(r) <==> BadPrice(r.price)
  {
    if IsNegative(r.price) {
      NegativeHasMinus(r.price);
      assert r.price != "";
    }
  }

  // ---------------------------------------------------------------------
  // The payloads of `createServices`

  /** One inserted `services` row. */
  datatype ServicePayload = ServicePayload(
    category: string,
    name: Option<string>,
    defaultPrice: Option<Amount>,
    color: Option<string>,
    excludeFromStats: bool)

  /** The single row of a category without sub-services. */
  function CategoryPayload(category: string, categoryPrice: string, categoryColor: string, exclude: bool): ServicePayload {
    ServicePayload(category, None, PayloadPrice(categoryPrice), TextOrNull(categoryColor), exclude)
  }

  /** `(r.color || categoryColor) || null`: a sub-service's own colour,
      else the category's, else none. */
  function InheritedColor(own: string, categoryColor: string): (r: Option<string>)
    ensures own != "" ==> r == Some(own)
    ensures own == "" ==> r == TextOrNull(categoryColor)
  {
    TextOrNull(if own != "" then own else categoryColor)
  }

  /** The row of one sub-service (its fields already normalised). */
  function SubPayload(category: string, categoryColor: string, exclude: bool, r: Row): ServicePayload {
    ServicePayload(category, Some(r.name), PayloadPrice(r.price), InheritedColor(r.color, categoryColor), exclude)
  }

  /** The payload loop of `createServices`: one row for the category when
      no row has a name, otherwise one row per named row, in row order,
      all with the category and the statistics flag of the form. */
  method BuildPayloads(catName: string, categoryPrice: string, categoryColor: string, exclude: bool, rows: seq<Row>)
    returns (ps: seq<ServicePayload>)
    ensures Subs(rows) == [] ==> ps == [CategoryPayload(Norm(Some(catName)), categoryPrice, categoryColor, exclude)]
    ensures Subs(rows) != [] ==> |ps| == |Subs(rows)|
    ensures Subs(rows) != [] ==> forall k :: 0 <= k < |ps| ==>
      ps[k] == SubPayload(Norm(Some(catName)), categoryColor, exclude, Subs(rows)[k])
    ensures forall k :: 0 <= k < |ps| ==> ps[k].category == Norm(Some(catName)) && ps[k].excludeFromStats == exclude
  {
    var category := Norm(Some(catName));
    var subs := Subs(rows);
    if |subs| == 0 {
      ps := [CategoryPayload(category, categoryPrice, categoryColor, exclude)];
    } else {
      ps := PushSubPayloads(category, categoryColor, exclude, subs);
    }
  }

  /** `subs.forEach(r => payloads.push(...))` */
  method PushSubPayloads(category: string, categoryColor: string, exclude: bool, subs: seq<Row>)
    returns (ps: seq<ServicePayload>)
    ensures |ps| == |subs|
    ensures forall k :: 0 <= k < |ps| ==> ps[k] == SubPayload(category, categoryColor, exclude, subs[k])
    ensures forall k :: 0 <= k < |ps| ==> ps[k].category == category && ps[k].excludeFromStats == exclude
  {
    ps := [];
    var i := 0;
    while i < |subs|
      invariant 0 <= i <= |subs| && |ps| == i
      invariant forall k :: 0 <= k < i ==> ps[k] == SubPayload(category, categoryColor, exclude, subs[k])
    {
      ps := ps + [SubPayload(category, categoryColor, exclude, subs[i])];
      i := i + 1;
    }
  }

  /** Every sub-service row carries a name and a colour from its own row or
      the category (never the grey itself), and a price only when its row
      has one. */
  lemma SubPayloadFacts(category: string, categoryColor: string, exclude: bool, rows: seq<Row>, k: nat)
    requires k < |Subs(rows)|
    ensures var p := SubPayload(category, categoryColor, exclude, Subs(rows)[k]);
      && p.name.Some? && p.name.value != ""
      && (p.color.None? <==> Subs(rows)[k].color == "" && categoryColor == "")
      && (p.color.Some? ==> p.color.value == Subs(rows)[k].color || p.color.value == categoryColor)
      && (p.defaultPrice.None? <==> Subs(rows)[k].price == "")
  {
    var ss := Subs(rows);
    assert Named(ss[k]);
  }

  // ---------------------------------------------------------------------
  // Editing one service

  /** `editForm`: the price is text here (the page may hold the number). */
  datatype EditForm = EditForm(id: Option<string>, category: string, name: string, price: string,
                               color: string, exclude: bool)

  /** `openEdit`: missing fields become empty text. */
  function OpenEdit(svc: Service): EditForm {
    EditForm(Some(svc.id), svc.category, svc.name.GetOr(""),
             if svc.defaultPrice.Some? then CentsText(svc.defaultPrice.value) else "",
             svc.color.GetOr(""), svc.excludeFromStats)
  }

  datatype EditCheck = EditOk | EmptyCategory | BadColor | NegativePrice

  /** `validateEdit`: category, colour, price, in that order. */
  function ValidateEdit(f: EditForm): (r: EditCheck)
    ensures r == EmptyCategory <==> Norm(Some(f.category)) == ""
    ensures r == BadColor <==> Norm(Some(f.category)) != "" && !ValidHex(Norm(Some(f.color)))
    ensures r == NegativePrice <==>
      Norm(Some(f.category)) != "" && ValidHex(Norm(Some(f.color))) && Norm(Some(f.price)) != "" && IsNegative(f.price)
    ensures r == EditOk <==>
      Norm(Some(f.category)) != "" && ValidHex(Norm(Some(f.color))) && !(Norm(Some(f.price)) != "" && IsNegative(f.price))
  {
    if Norm(Some(f.category)) == "" then EmptyCategory
    else if !ValidHex(Norm(Some(f.color))) then BadColor
    else if Norm(Some(f.price)) != "" && IsNegative(f.price) then NegativePrice
    else EditOk
  }

  datatype EditPayload = EditPayload(category: string, name: Option<string>, defaultPrice: Option<Amount>,
                                     color: Option<string>, excludeFromStats: bool)

  /** The update of `saveEdit`: empty name, price and colour become null. */
  function EditPayloadOf(f: EditForm): (p: EditPayload)
    ensures p.category == Norm(Some(f.category))
    ensures p.name.None? <==> Norm(Some(f.name)) == ""
    ensures p.defaultPrice.None? <==> Norm(Some(f.price)) == ""
    ensures p.color.None? <==> Norm(Some(f.color)) == ""
    ensures p.name.Some? ==> p.name.value == Norm(Some(f.name))
    ensures p.color.Some? ==> p.color.value == Norm(Some(f.color))
  {
    EditPayload(Norm(Some(f.category)), TextOrNull(Norm(Some(f.name))),
                if Norm(Some(f.price)) != "" then Some(JsNumber(f.price)) else None,
                TextOrNull(Norm(Some(f.color))), f.exclude)
  }

  /** The price the page's row takes from the payload, in cents: NaN, and
      (not representable here) an amount finer than a cent, become null. */
  function StoredPrice(p: Option<Amount>): Option<int> {
    match p
    case Some(a) => CentsOf(a)
    case None => None
  }

  /** `{...x, ...payload}`: the edited fields replace the row's, the id stays. */
  function Merge(x: Service, p: EditPayload): (r: Service)
    ensures r.id == x.id
  {
    x.(category := p.category, name := p.name, defaultPrice := StoredPrice(p.defaultPrice),
       color := p.color, excludeFromStats := p.excludeFromStats)
  }

  datatype SaveEditOutcome = NoId | EditRefused(why: EditCheck) | Update(id: string, payload: EditPayload)

  /** `saveEdit` up to the update: no id, nothing happens; then the checks. */
  function SaveEdit(f: EditForm): (r: SaveEditOutcome)
    ensures r.Update? <==> Truthy(f.id) && ValidateEdit(f) == EditOk
    ensures r.Update? ==> r.id == f.id.value && r.payload == EditPayloadOf(f)
    ensures r.EditRefused? ==> Truthy(f.id) && r.why == ValidateEdit(f)
  {
    if !Truthy(f.id) then NoId
    else if ValidateEdit(f) != EditOk then EditRefused(ValidateEdit(f))
    else Update(f.id.value, EditPayloadOf(f))
  }

  /** An optional text field opened with `|| ""` and saved back with
      `norm(...) || null` is unchanged when it was trimmed and non-empty. */
  lemma TextFieldRoundTrip(o: Option<string>)
    requires o.Some? ==> o.value != "" && Unpadded(o.value)
    ensures TextOrNull(Norm(Some(o.GetOr("")))) == o
  {
    TrimUnpadded(o.GetOr(""));
  }

  /** A price opened with `String(p)` and saved back with `Number(...)`
      passes the price check and is stored as the same number. */
  lemma PriceFieldRoundTrip(p: Option<int>)
    requires p.Some? ==> p.value >= 0
    ensures var t := if p.Some? then CentsText(p.value) else "";
      && (Norm(Some(t)) == "" <==> p.None?)
      && !(Norm(Some(t)) != "" && IsNegative(t))
      && StoredPrice(if Norm(Some(t)) != "" then Some(JsNumber(t)) else None) == p
  {
    if p.Some? {
      var t := CentsText(p.value);
      NumberOfCentsText(p.value);
      assert t != "" && Norm(Some(t)) == t;
    } else {
      assert Norm(Some("")) == "" by { TrimUnpadded(""); }
    }
  }

  /** A colour opened with `|| ""` passes the colour check and is saved back
      unchanged when it was valid. */
  lemma ColorFieldRoundTrip(o: Option<string>)
    requires o.Some? ==> o.value != "" && ValidHex(o.value)
    ensures ValidHex(Norm(Some(o.GetOr(""))))
    ensures TextOrNull(Norm(Some(o.GetOr("")))) == o
  {
    TrimUnpadded("");
    if o.Some? {
      ValidHexIsNormal(o.value);
    }
  }

  /** A payload that carries the row's own values changes nothing. */
  lemma MergeSame(svc: Service, p: EditPayload)
    requires p.category == svc.category && p.name == svc.name && p.color == svc.color
    requires StoredPrice(p.defaultPrice) == svc.defaultPrice && p.excludeFromStats == svc.excludeFromStats
    ensures Merge(svc, p) == svc
  {
  }

  /** A service row in normal form (trimmed category and name, a colour
      that is trimmed and valid, a price that is not negative) survives
      opening and saving the edit form unchanged. */
  lemma OpenAndSaveIsIdentity(svc: Service)
    requires svc.id != "" && svc.category != "" && Unpadded(svc.category)
    requires svc.name.Some? ==> svc.name.value != "" && Unpadded(svc.name.value)
    requires svc.color.Some? ==> svc.color.value != "" && ValidHex(svc.color.value)
    requires svc.defaultPrice.Some? ==> svc.defaultPrice.value >= 0
    ensures SaveEdit(OpenEdit(svc)).Update?
    ensures Merge(svc, SaveEdit(OpenEdit(svc)).payload) == svc
  {
    var f := OpenEdit(svc);
    assert Norm(Some(f.category)) == svc.category by { TrimUnpadded(svc.category); }
    assert TextOrNull(Norm(Some(f.name))) == svc.name by { TextFieldRoundTrip(svc.name); }
    assert ValidHex(Norm(Some(f.color))) && TextOrNull(Norm(Some(f.color))) == svc.color by {
      ColorFieldRoundTrip(svc.color);
    }
    assert (Norm(Some(f.price)) == "" <==> svc.defaultPrice.None?)
      && !(Norm(Some(f.price)) != "" && IsNegative(f.price))
      && StoredPrice(if Norm(Some(f.price)) != "" then Some(JsNumber(f.price)) else None) == svc.defaultPrice by {
      PriceFieldRoundTrip(svc.defaultPrice);
    }
    assert ValidateEdit(f) == EditOk;
    var p := EditPayloadOf(f);
    assert p.category == svc.category && p.name == svc.name && p.color == svc.color;
    assert StoredPrice(p.defaultPrice) == svc.defaultPrice;
    assert p.excludeFromStats == svc.excludeFromStats;
    MergeSame(svc, p);
    assert SaveEdit(f) == Update(svc.id, p);
  }

  // ---------------------------------------------------------------------
  // The list of the page

  /** `[...prev, ...data]` sorted by the catalogue order. */
  function WithCreated(list: seq<Service>, data: seq<Service>, collate: Collate): seq<Service> {
    SortBy(list + data, CatalogueLe(collate))
  }

  /** `prev.map(x => x.id === id ? {...x, ...payload} : x)` sorted. */
  function WithEdited(list: seq<Service>, id: string, p: EditPayload, collate: Collate): seq<Service> {
    SortBy(UpdateByKey(list, ServiceId, id, (x: Service) => Merge(x, p)), CatalogueLe(collate))
  }

  /** The lists after a create or an edit are in catalogue order, the
      created rows are added, the edited id merged, and nothing else changes. */
  lemma ListUpdatesFacts(list: seq<Service>, data: seq<Service>, id: string, p: EditPayload, collate: Collate)
    requires Comparator(collate)
    ensures Sorted(WithCreated(list, data, collate), CatalogueLe(collate))
    ensures multiset(WithCreated(list, data, collate)) == multiset(list) + multiset(data)
    ensures Sorted(WithEdited(list, id, p, collate), CatalogueLe(collate))
    ensures multiset(WithEdited(list, id, p, collate)) ==
      multiset(UpdateByKey(list, ServiceId, id, (x: Service) => Merge(x, p)))
  {
    CatalogueOrder(collate);
    SortBySorted(list + data, CatalogueLe(collate));
    SortBySorted(UpdateByKey(list, ServiceId, id, (x: Service) => Merge(x, p)), CatalogueLe(collate));
  }

  /** The `list` state of the page. */
  class ServiceList {
    var list: seq<Service>

    constructor (loaded: seq<Service>)
      ensures list == loaded
    {
      list := loaded;
    }

    /** After a successful insert in `createServices`. */
    method AddCreated(data: seq<Service>, collate: Collate)
      modifies this
      ensures list == WithCreated(old(list), data, collate)
    {
      list := WithCreated(list, data, collate);
    }

    /** `saveEdit`: on a successful update the list takes the edit. */
    method SaveEditOf(f: EditForm, updateOk: bool, collate: Collate) returns (r: SaveEditOutcome)
      modifies this
      ensures r == SaveEdit(f)
      ensures r.Update? && updateOk ==> list == WithEdited(old(list), r.id, r.payload, collate)
      ensures !(r.Update? && updateOk) ==> list == old(list)
    {
      r := SaveEdit(f);
      if r.Update? && updateOk {
        list := WithEdited(list, r.id, r.payload, collate);
      }
    }

    /** `removeService`: drop the row at once, put the old list back when
        the delete fails. */
    method RemoveService(id: string, deleteOk: bool)
      modifies this
      ensures deleteOk ==> list == RemoveByKey(old(list), ServiceId, id)
      ensures !deleteOk ==> list == old(list)
    {
      var prev := list;
      list := RemoveByKey(list, ServiceId, id);
      if !deleteOk {
        list := prev;
      }
    }
  }
}
