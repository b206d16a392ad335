/** A contact record, as far as the address book and the bot see it. The record module
    itself (tasks/address_book/record.py) is not part of this model: its operations are
    supplied as the functions of a `RecordApi`. */
module Records {
  import opened Wrappers
  import opened Errors
  import opened Dates

  /** `name` is `str(record.name)`, the key the book stores the record under; `phones`
      holds `str(phone)` of each phone in order; `birthday` is `str(record.birthday)`
      when a birthday is set. */
  datatype Record = Record(name: string, phones: seq<string>, birthday: Option<string>)

  /** The record module's operations the book and the bot call. Each one either returns
      the record as it is afterwards or the error it raises, and changes nothing when it
      raises.
      - `create(name, phones)`: `Record(name, phones=phones)`;
      - `addPhone(r, phone)`, `editPhone(r, old, new)`, `addBirthday(r, text)`,
        `editBirthday(r, text)`: the mutators of the same names;
      - `nextBirthday(r, today)`: `r.next_birthday(today)`;
      - `render(r)`: `str(r)`. */
  datatype RecordApi = RecordApi(
    create: (string, seq<string>) -> Result<Record>,
    addPhone: (Record, string) -> Result<Record>,
    editPhone: (Record, string, string) -> Result<Record>,
    addBirthday: (Record, string) -> Result<Record>,
    editBirthday: (Record, string) -> Result<Record>,
    nextBirthday: (Record, Date) -> Option<Date>,
    render: Record -> string)
  {
    /** The mutators change a record's phones or birthday and never its name, so a record
        stays under the key it was added with. */
    ghost predicate KeepsNames() {
      && (forall r, p :: addPhone(r, p).Success? ==> addPhone(r, p).value.name == r.name)
      && (forall r, p, q :: editPhone(r, p, q).Success? ==> editPhone(r, p, q).value.name == r.name)
      && (forall r, b :: addBirthday(r, b).Success? ==> addBirthday(r, b).value.name == r.name)
      && (forall r, b :: editBirthday(r, b).Success? ==> editBirthday(r, b).value.name == r.name)
    }
  }
}
