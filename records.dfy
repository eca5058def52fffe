/** The database rows the pages share. Optional columns are `Option`s;
    prices are whole numbers of cents. */
module Records {

  import opened Optional
  import opened Strings

  /** `appointments.status`: "scheduled", "attended" or "no_show". */
  datatype Status = Scheduled | Attended | NoShow

  /** A `services` row: a category row has no (or an empty) name, a
      sub-service row names the sub-service. */
  datatype Service = Service(
    id: string,
    category: string,
    name: Option<string>,
    defaultPrice: Option<int>,
    color: Option<string>,
    excludeFromStats: bool)

  /** A `clients` row. */
  datatype Client = Client(
    id: string,
    name: string,
    phone: Option<string>,
    email: Option<string>,
    gender: Option<string>)

  /** `s.category === cat && (s.name == null || String(s.name).trim() === "")`:
      the category's own row, the one without a sub-service name. */
  predicate CategoryRow(s: Service, cat: string) {
    s.category == cat && (s.name.None? || Trim(s.name.value) == "")
  }

  function ServiceId(s: Service): string {
    s.id
  }

  function ClientId(c: Client): string {
    c.id
  }
}
