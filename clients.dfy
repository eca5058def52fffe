/** The client list page: a name-ordered list loaded fifty rows at a
    time, with the edit, create and delete dialogs that write a client and
    then patch the loaded list in place, without reloading it. The replies
    of the database are parameters. */
module Clients {

  import opened Optional
  import opened Strings
  import opened Records
  import opened Lists
  import opened Sorting
  import Booking

  /** Rows per page. */
  const PAGE_SIZE: nat := 50

  // ---------------------------------------------------------------------
  // Paging

  /** `loadPage`'s `.range(from, to)`: from the start on a reset, after
      the rows already shown otherwise; both ends inclusive. */
  function PageRange(reset: bool, shown: nat): (r: (nat, nat))
    ensures r.0 == if reset then 0 else shown
    ensures r.1 - r.0 + 1 == PAGE_SIZE
  {
    var offset := if reset then 0 else shown;
    (offset, offset + PAGE_SIZE - 1)
  }

  /** What a query replied: the rows, or an error with its message. */
  datatype Fetch = Rows(rows: seq<Client>) | FetchError(message: string)

  /** A status line: an `ok` or an `error` text. */
  datatype Note = Ok(text: string) | Error(text: string)

  /** The loaded list as `loadPage` leaves it. */
  datatype Page = Page(list: seq<Client>, hasMore: bool)

  /** The list after a reply: on a reset the rows replace the list, else
      they are appended; `hasMore` says whether the page came back full.
      An error clears the list on a reset and keeps it (and `hasMore`)
      otherwise. */
  function AfterLoad(p: Page, reset: bool, f: Fetch): (r: Page)
    ensures f.Rows? ==> r.hasMore == (|f.rows| == PAGE_SIZE)
    ensures f.Rows? && reset ==> r.list == f.rows
    ensures f.Rows? && !reset ==> r.list == p.list + f.rows
    ensures f.FetchError? ==> r.hasMore == p.hasMore && r.list == (if reset then [] else p.list)
  {
    match f
    case FetchError(_) => p.(list := if reset then [] else p.list)
    case Rows(rows) => Page(if reset then rows else p.list + rows, |rows| == PAGE_SIZE)
  }

  /** A reset and first page, then one more page per further reply. */
  function LoadAll(first: seq<Client>, more: seq<seq<Client>>): Page
    decreases |more|
  {
    if more == [] then AfterLoad(Page([], true), true, Rows(first))
    else AfterLoad(LoadAll(first, more[..|more| - 1]), false, Rows(more[|more| - 1]))
  }

  function Concat(pages: seq<seq<Client>>): seq<Client> {
    if pages == [] then [] else Concat(pages[..|pages| - 1]) + pages[|pages| - 1]
  }

  /** Scrolling through the pages shows every row of every reply once, in
      order; `hasMore` is whether the last reply was full; and while all
      pages come back full, page `k` asks for rows `50k` to `50k + 49`,
      so the pages tile the list without a gap or an overlap. */
  lemma {:induction false} LoadAllFacts(first: seq<Client>, more: seq<seq<Client>>)
    ensures LoadAll(first, more).list == first + Concat(more)
    ensures LoadAll(first, more).hasMore == (|([first] + more)[|more|]| == PAGE_SIZE)
    ensures (|first| == PAGE_SIZE && forall i :: 0 <= i < |more| ==> |more[i]| == PAGE_SIZE) ==>
      PageRange(false, |LoadAll(first, more).list|) == ((|more| + 1) * PAGE_SIZE, (|more| + 2) * PAGE_SIZE - 1)
    decreases |more|
  {
    if more == [] {
      assert first + Concat(more) == first;
    } else {
      var init := more[..|more| - 1];
      LoadAllFacts(first, init);
      assert first + Concat(more) == (first + Concat(init)) + more[|more| - 1];
      assert ([first] + more)[|more|] == more[|more| - 1];
      if |first| == PAGE_SIZE && forall i :: 0 <= i < |more| ==> |more[i]| == PAGE_SIZE {
        assert forall i :: 0 <= i < |init| ==> init[i] == more[i];
      }
    }
  }

  // ---------------------------------------------------------------------
  // Payloads and forms

  /** The edit dialog's fields. */
  datatype EditForm = EditForm(id: string, name: string, phone: string, email: string, gender: string)

  const NoEdit: EditForm := EditForm("", "", "", "", "female")

  /** `openEdit`: the client's fields, an empty text for a missing one and
      "female" for a missing gender. */
  function OpenEdit(c: Client): (f: EditForm)
    ensures f.id == c.id && f.name == c.name
    ensures f.phone == c.phone.GetOr("") && f.email == c.email.GetOr("")
    ensures f.gender != ""
  {
    EditForm(c.id, c.name, c.phone.GetOr(""), c.email.GetOr(""),
             if Truthy(c.gender) then c.gender.value else "female")
  }

  /** The written row of `saveEdit` and `createClient`: trimmed texts, an
      empty phone or email as `null`, "female" for an empty gender. */
  function FormPayload(name: string, phone: string, email: string, gender: string): (p: Booking.ClientPayload)
    ensures p.name == Trim(name)
    ensures p.phone == TextOrNull(Trim(phone)) && p.email == TextOrNull(Trim(email))
    ensures p.gender != "" && (gender != "" ==> p.gender == gender)
  {
    Booking.ClientPayload(Trim(name), TextOrNull(Trim(phone)), TextOrNull(Trim(email)),
                          if gender != "" then gender else "female")
  }

  /** Saving an opened client unchanged writes its own fields back (a
      missing gender as "female"), when its texts carry no surrounding
      spaces. */
  lemma OpenAndSaveWritesClient(c: Client)
    requires Unpadded(c.name)
    requires c.phone.Some? ==> c.phone.value != "" && Unpadded(c.phone.value)
    requires c.email.Some? ==> c.email.value != "" && Unpadded(c.email.value)
    ensures var f := OpenEdit(c);
      FormPayload(f.name, f.phone, f.email, f.gender)
        == Booking.ClientPayload(c.name, c.phone, c.email, if Truthy(c.gender) then c.gender.value else "female")
  {
    TrimUnpadded(c.name);
    TrimUnpadded(c.phone.GetOr(""));
    TrimUnpadded(c.email.GetOr(""));
  }

  /** Creating a client writes the same row as the booking form does,
      except that an empty gender becomes "female" here. */
  lemma SameRowAsBooking(c: Booking.NewClient)
    ensures FormPayload(c.name, c.phone, c.email, c.gender)
      == Booking.NewClientPayload(c).(gender := if c.gender != "" then c.gender else "female")
  {
  }

  /** The message of a failed delete: the linked-reservations text when
      the error is a foreign-key violation, else the error's message, else
      a generic text. */
  const LinkedText: string := "Šio kliento pašalinti nepavyko: yra susietų rezervacijų."
  const DeleteFailedText: string := "Nepavyko pašalinti kliento."

  predicate ForeignKeyError(message: Option<string>, details: Option<string>) {
    Contains(Lower(message.GetOr("")), "foreign key") || Contains(Lower(details.GetOr("")), "violates")
  }

  function DeleteErrorText(message: Option<string>, details: Option<string>): (r: string)
    ensures ForeignKeyError(message, details) ==> r == LinkedText
    ensures !ForeignKeyError(message, details) ==> r == if Truthy(message) then message.value else DeleteFailedText
  {
    if ForeignKeyError(message, details) then LinkedText
    else if Truthy(message) then message.value else DeleteFailedText
  }

  /** The test ignores the case of the database's text: "FOREIGN KEY" or
      "Violates" anywhere in it gives the linked-reservations message. */
  lemma ForeignKeyAnyCase(message: string, details: Option<string>)
    requires Contains(message, "FOREIGN KEY") || Contains(message, "Foreign key")
    ensures DeleteErrorText(Some(message), details) == LinkedText
  {
    assert Lower("FOREIGN KEY") == "foreign key";
    assert Lower("Foreign key") == "foreign key";
    if Contains(message, "FOREIGN KEY") {
      LowerContains(message, "FOREIGN KEY");
    } else {
      LowerContains(message, "Foreign key");
    }
  }

  lemma ViolatesAnyCase(message: Option<string>, details: string)
    requires Contains(details, "VIOLATES") || Contains(details, "Violates")
    ensures DeleteErrorText(message, Some(details)) == LinkedText
  {
    assert Lower("VIOLATES") == "violates";
    assert Lower("Violates") == "violates";
    if Contains(details, "VIOLATES") {
      LowerContains(details, "VIOLATES");
    } else {
      LowerContains(details, "Violates");
    }
  }

  /** What a write replied. */
  datatype Reply = Done | Failed(message: Option<string>, details: Option<string>)

  function ReplyText(r: Reply, fallback: string): string
    requires r.Failed?
  {
    if Truthy(r.message) then r.message.value else fallback
  }

  // ---------------------------------------------------------------------
  // List updates

  function Replace(data: Client): Client -> Client {
    (x: Client) => data
  }

  /** `saveEdit`'s list update: the row with the edited id becomes the
      saved row, then the list is sorted by name. */
  function AfterEdit(list: seq<Client>, id: string, data: Client, byName: (Client, Client) -> bool): seq<Client> {
    SortBy(UpdateByKey(list, ClientId, id, Replace(data)), byName)
  }

  /** The edit replaces exactly the rows with the edited id (by the saved
      row) and keeps every other row, as many times as before, in name
      order. */
  lemma AfterEditFacts(list: seq<Client>, id: string, data: Client, byName: (Client, Client) -> bool)
    requires Total(byName)
    ensures var r := AfterEdit(list, id, data, byName);
      Sorted(r, byName) && |r| == |list|
      && (forall y :: y in r <==> (y in list && y.id != id) || (y == data && exists i :: 0 <= i < |list| && list[i].id == id))
    ensures var u := UpdateByKey(list, ClientId, id, Replace(data));
      && multiset(AfterEdit(list, id, data, byName)) == multiset(u)
      && |u| == |list|
      && (forall i :: 0 <= i < |list| ==> u[i] == if list[i].id == id then data else list[i])
  {
    var u := UpdateByKey(list, ClientId, id, Replace(data));
    var r := AfterEdit(list, id, data, byName);
    SortBySorted(u, byName);
    forall y ensures y in r <==> (y in list && y.id != id) || (y == data && exists i :: 0 <= i < |list| && list[i].id == id) {
      assert y in r <==> y in multiset(u);
      if y in u {
        var i :| 0 <= i < |u| && u[i] == y;
        assert list[i].id == id ==> y == data;
      }
      if y in list && y.id != id {
        var i :| 0 <= i < |list| && list[i] == y;
        assert u[i] == y;
      }
      if y == data && exists i :: 0 <= i < |list| && list[i].id == id {
        var i :| 0 <= i < |list| && list[i].id == id;
        assert u[i] == data;
      }
    }
  }

  /** `deleteClient`'s optimistic update: every row of that id leaves, the
      others stay in order. */
  lemma AfterDeleteFacts(list: seq<Client>, id: string)
    ensures forall y :: y in RemoveByKey(list, ClientId, id) <==> y in list && y.id != id
    ensures (forall i :: 0 <= i < |list| ==> list[i].id != id) ==> RemoveByKey(list, ClientId, id) == list
  {
    RemoveByKeyContents(list, ClientId, id);
  }

  // ---------------------------------------------------------------------
  // The page

  /** The page's state, as one value. */
  datatype PageState = PageState(
    list: seq<Client>,
    hasMore: bool,
    msg: Option<Note>,
    selected: Option<Client>,
    editForm: EditForm,
    editOpen: bool,
    newForm: Booking.NewClient,
    newOpen: bool)

  class ClientsPage {
    var list: seq<Client>
    var hasMore: bool
    var msg: Option<Note>
    var selected: Option<Client>
    var editForm: EditForm
    var editOpen: bool
    var newForm: Booking.NewClient
    var newOpen: bool

    function State(): PageState
      reads this
    {
      PageState(list, hasMore, msg, selected, editForm, editOpen, newForm, newOpen)
    }

    /** The page as mounted: nothing loaded, more to load. */
    constructor ()
      ensures State() == PageState([], true, None, None, NoEdit, false, Booking.EmptyNewClient, false)
    {
      list := [];
      hasMore := true;
      msg := None;
      selected := None;
      editForm := NoEdit;
      editOpen := false;
      newForm := Booking.EmptyNewClient;
      newOpen := false;
    }

    /** `loadPage`: without a workspace nothing happens; otherwise the
        range asked for is returned and the reply is applied as
        `AfterLoad` says, an error also showing its message. */
    method LoadPage(hasWorkspace: bool, reset: bool, f: Fetch) returns (range: Option<(nat, nat)>)
      modifies this
      ensures !hasWorkspace ==> range.None? && State() == old(State())
      ensures hasWorkspace ==> range == Some(PageRange(reset, |old(list)|))
      ensures hasWorkspace ==> Page(list, hasMore) == AfterLoad(Page(old(list), old(hasMore)), reset, f)
      ensures hasWorkspace ==> msg == (if f.FetchError? then Some(Error(f.message)) else old(msg))
      ensures hasWorkspace ==> State().(list := old(list), hasMore := old(hasMore), msg := old(msg)) == old(State())
    {
      if !hasWorkspace {
        return None;
      }
      range := Some(PageRange(reset, |list|));
      match f
      case FetchError(m) =>
        msg := Some(Error(m));
        if reset {
          list := [];
        }
      case Rows(rows) =>
        list := if reset then rows else list + rows;
        hasMore := |rows| == PAGE_SIZE;
    }

    /** `resetAndLoad`: without a workspace the list is emptied; otherwise
        the list is emptied, `hasMore` set, and the first page loaded. */
    method ResetAndLoad(hasWorkspace: bool, f: Fetch) returns (range: Option<(nat, nat)>)
      modifies this
      ensures !hasWorkspace ==> range.None? && State() == old(State()).(list := [])
      ensures hasWorkspace ==> range == Some((0, PAGE_SIZE - 1))
      ensures hasWorkspace ==> Page(list, hasMore) == AfterLoad(Page([], true), true, f)
      ensures hasWorkspace ==> msg == (if f.FetchError? then Some(Error(f.message)) else old(msg))
      ensures hasWorkspace ==> State().(list := old(list), hasMore := old(hasMore), msg := old(msg)) == old(State())
    {
      if !hasWorkspace {
        list := [];
        return None;
      }
      hasMore := true;
      list := [];
      range := LoadPage(hasWorkspace, true, f);
    }

    /** `openEdit`: the dialog opens on the client's fields. */
    method OpenEditFor(c: Client)
      modifies this
      ensures State() == old(State()).(editForm := OpenEdit(c), editOpen := true)
    {
      editForm := OpenEdit(c);
      editOpen := true;
    }

    /** The state updates after an edit was saved: the patched list, the
        saved row in an open history of that client, the dialog closed. */
    method ShowSaved(patched: seq<Client>, data: Client)
      modifies this
      ensures State() == old(State()).(
        list := patched,
        selected := if old(selected).Some? && old(selected).value.id == old(editForm).id then Some(data) else old(selected),
        msg := Some(Ok("Pakeitimai išsaugoti.")),
        editOpen := false)
    {
      list := patched;
      if selected.Some? && selected.value.id == editForm.id {
        selected := Some(data);
      }
      msg := Some(Ok("Pakeitimai išsaugoti."));
      editOpen := false;
    }

    /** `saveEdit`: nothing without an id; a blank name is refused before
        any write; otherwise the payload is written, and on success the
        list is patched and re-sorted, an open history of that client
        shows the saved row, and the dialog closes. Returns the payload
        sent, if any. */
    method SaveEdit(data: Client, reply: Reply, byName: (Client, Client) -> bool)
      returns (sent: Option<Booking.ClientPayload>)
      modifies this
      ensures sent.Some? <==> old(editForm).id != "" && Trim(old(editForm).name) != ""
      ensures sent.Some? ==> sent.value == FormPayload(old(editForm).name, old(editForm).phone,
                                                       old(editForm).email, old(editForm).gender)
      ensures old(editForm).id == "" ==> State() == old(State())
      ensures old(editForm).id != "" && Trim(old(editForm).name) == "" ==>
        State() == old(State()).(msg := Some(Error("Įveskite vardą ir pavardę.")))
      ensures sent.Some? && reply.Done? ==>
        State() == old(State()).(
          list := AfterEdit(old(list), old(editForm).id, data, byName),
          selected := if old(selected).Some? && old(selected).value.id == old(editForm).id then Some(data) else old(selected),
          msg := Some(Ok("Pakeitimai išsaugoti.")),
          editOpen := false)
      ensures sent.Some? && reply.Failed? ==>
        State() == old(State()).(msg := Some(Error(ReplyText(reply, "Nepavyko išsaugoti."))))
    {
      if editForm.id == "" {
        return None;
      }
      if Trim(editForm.name) == "" {
        msg := Some(Error("Įveskite vardą ir pavardę."));
        return None;
      }
      sent := Some(FormPayload(editForm.name, editForm.phone, editForm.email, editForm.gender));
      if reply.Done? {
        ShowSaved(AfterEdit(list, editForm.id, data, byName), data);
      } else {
        msg := Some(Error(ReplyText(reply, "Nepavyko išsaugoti.")));
      }
    }

    /** `deleteClient`: unless confirmed nothing happens; the client's row
        leaves the list at once; a failed delete puts the earlier list back
        and explains why; a done one closes the dialogs on that client. */
    method DeleteClient(cli: Client, confirmed: bool, reply: Reply)
      modifies this
      ensures !confirmed ==> State() == old(State())
      ensures confirmed && reply.Failed? ==>
        State() == old(State()).(msg := Some(Error(DeleteErrorText(reply.message, reply.details))))
      ensures confirmed && reply.Done? ==>
        State() == old(State()).(
          list := RemoveByKey(old(list), ClientId, cli.id),
          msg := Some(Ok("Klientas pašalintas.")),
          selected := if old(selected).Some? && old(selected).value.id == cli.id then None else old(selected),
          editOpen := false)
    {
      if !confirmed {
        return;
      }
      var prev := list;
      list := RemoveByKey(list, ClientId, cli.id);
      if reply.Failed? {
        list := prev;
        msg := Some(Error(DeleteErrorText(reply.message, reply.details)));
      } else {
        msg := Some(Ok("Klientas pašalintas."));
        if selected.Some? && selected.value.id == cli.id {
          selected := None;
        }
        editOpen := false;
      }
    }

    /** The state updates after a client was created: the merged list,
        the dialog closed and reset, the new client's history open. */
    method ShowCreated(merged: seq<Client>, data: Client)
      modifies this
      ensures State() == old(State()).(list := merged, msg := Some(Ok("Klientas sukurtas.")),
                                       newOpen := false, newForm := Booking.EmptyNewClient,
                                       selected := Some(data))
    {
      list := merged;
      msg := Some(Ok("Klientas sukurtas."));
      newOpen := false;
      newForm := Booking.EmptyNewClient;
      selected := Some(data);
    }

    /** `createClient`: a blank name is refused before any write; a
        created client is merged into the list (no id twice, name order),
        the dialog closes and resets, and the new client's history opens.
        Returns the payload sent, if any. */
    method CreateClient(data: Client, reply: Reply, byName: (Client, Client) -> bool)
      returns (sent: Option<Booking.ClientPayload>)
      modifies this
      ensures sent.Some? <==> Trim(old(newForm).name) != ""
      ensures sent.Some? ==> sent.value == FormPayload(old(newForm).name, old(newForm).phone,
                                                       old(newForm).email, old(newForm).gender)
      ensures sent.None? ==> State() == old(State()).(msg := Some(Error("Įveskite vardą ir pavardę.")))
      ensures sent.Some? && reply.Done? ==>
        State() == old(State()).(
          list := Booking.MergeClient(old(list), data, byName),
          msg := Some(Ok("Klientas sukurtas.")),
          newOpen := false,
          newForm := Booking.EmptyNewClient,
          selected := Some(data))
      ensures sent.Some? && reply.Failed? ==>
        State() == old(State()).(msg := Some(Error(ReplyText(reply, "Nepavyko sukurti kliento."))))
    {
      if Trim(newForm.name) == "" {
        msg := Some(Error("Įveskite vardą ir pavardę."));
        return None;
      }
      sent := Some(FormPayload(newForm.name, newForm.phone, newForm.email, newForm.gender));
      if reply.Done? {
        ShowCreated(Booking.MergeClient(list, data, byName), data);
      } else {
        msg := Some(Error(ReplyText(reply, "Nepavyko sukurti kliento.")));
      }
    }
  }
}
