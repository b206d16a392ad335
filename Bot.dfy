/** The command layer of the contacts bot (tasks/contacts_bot.py): parsing a typed line,
    the `input_error` wrapper that turns an exception into an error reply, and the command
    handlers over an `AddressBook`. */
module Bot {
  import opened Wrappers
  import opened Errors
  import opened Text
  import opened Dates
  import opened Records
  import opened Book

  /** `parse_input`: the command word lower-cased, then the remaining words as typed; a
      line with no words gives the single empty command. */
  function ParseInput(line: string): (r: seq<string>)
    ensures |r| >= 1
    ensures r == [""] <==> AllSpace(line)
    ensures Split(line) != [] ==> r[0] == Lower(Split(line)[0]) && r[1..] == Split(line)[1..]
  {
    SplitEmptyIff(line);
    var tokens := Split(line);
    if tokens == [] then [""]
    else
      var command := Lower(tokens[0]);
      assert IsWord(tokens[0]) && command != "";
      var parsed := [command] + tokens[1..];
      assert parsed[0] == command;
      parsed
  }

  /** Words typed with single spaces between them parse back to those words, the first
      one lower-cased. */
  lemma ParseJoinedWords(words: seq<string>)
    requires words != []
    requires forall i :: 0 <= i < |words| ==> IsWord(words[i])
    ensures ParseInput(Join(words, " ")) == [Lower(words[0])] + words[1..]
  {
    SplitJoin(words);
    SplitEmptyIff(Join(words, " "));
  }

  /** Every argument a command receives is a word: non-empty and free of white space. */
  lemma ParsedArgumentsAreWords(line: string)
    ensures forall i :: 1 <= i < |ParseInput(line)| ==> IsWord(ParseInput(line)[i])
  {
    SplitEmptyIff(line);
  }

  /** What a handler gives back: its text, or the `(ERROR_TEXT_COLOR, message)` pair. */
  datatype Reply = Ok(msg: string) | Err(msg: string)

  /** The optional messages an `input_error(...)` wrapper is built with. */
  datatype Custom = Custom(valueMessage: Option<string>, keyMessage: Option<string>, indexMessage: Option<string>)

  /** The custom message that applies to an exception of the given kind, if any. */
  function CustomFor(custom: Custom, kind: Kind): Option<string> {
    match kind
    case IndexKind => custom.indexMessage
    case KeyKind => custom.keyMessage
    case ValueKind => custom.valueMessage
    case OtherKind => None
  }

  /** Python's `message or fallback` on an optional string. */
  function OrElse(message: Option<string>, fallback: string): (r: string)
    ensures r == fallback || (message.Some? && r == message.value)
    ensures r == "" <==> fallback == "" && (message.None? || message.value == "")
  {
    if message.Some? && message.value != "" then message.value else fallback
  }

  /** The `input_error` wrapper's reply to an exception: the custom message for the
      exception's kind (IndexError, KeyError, ValueError, tested in that order) when one is
      given and non-empty, and the exception's own message otherwise. */
  function InputError(custom: Custom, e: Error): (r: Reply)
    ensures r.Err?
    ensures var m := CustomFor(custom, KindOf(e));
      if m.Some? && m.value != "" then r.msg == m.value else r.msg == Message(e)
  {
    var message := Message(e);
    if KindOf(e) == IndexKind then Err(OrElse(custom.indexMessage, message))
    else if KindOf(e) == KeyKind then Err(OrElse(custom.keyMessage, message))
    else if KindOf(e) == ValueKind then Err(OrElse(custom.valueMessage, message))
    else Err(message)
  }

  const NameUsage := Custom(None, None, Some("Give me the name, please."))
  const AddUsage := Custom(None, None, Some("Give me the name and phone number, please."))
  const ChangeUsage := Custom(None, None, Some("Give me the name, existing phone number and new phone number, please."))
  const BirthdayUsage := Custom(None, None, Some("Give me the name and date of birth, please."))

  /** A wrapper given only an index message uses it for missing arguments and passes
      every other exception's own message through. */
  lemma IndexMessageOnly(usage: string, e: Error)
    requires usage != ""
    ensures InputError(Custom(None, None, Some(usage)), e)
         == (if e == InvalidArguments then Err(usage) else Err(Message(e)))
  {
    assert KindOf(e) == IndexKind <==> e == InvalidArguments;
  }

  /** Some part is not empty, so the parts join to a non-empty text. */
  predicate HasText(parts: seq<string>) {
    exists i :: 0 <= i < |parts| && parts[i] != ""
  }

  /** `message or fallback` on the joined text of some parts. */
  function JoinedOr(parts: seq<string>, sep: string, fallback: string): (r: string)
    requires sep != ""
    ensures parts == [] ==> r == fallback
    ensures HasText(parts) ==> r == Join(parts, sep)
  {
    JoinEmptyIff(parts, sep);
    var text := Join(parts, sep);
    if text == "" then fallback else text
  }

  /** `str(r)` of each record, in order. */
  function Rendered(records: seq<Record>, render: Record -> string): (r: seq<string>)
    ensures |r| == |records|
    ensures forall i :: 0 <= i < |records| ==> r[i] == render(records[i])
  {
    seq(|records|, i requires 0 <= i < |records| => render(records[i]))
  }

  const EmptyBookText := "The address book is empty."
  const NoPhonesText := "The contact does not have any phone numbers."
  const NoBirthdayText := "The contact does not have a date of birth."
  const NoUpcomingText := "There are currently no upcoming birthdays."

  /** `show_all`: the records in insertion order, one per line, or a notice for an empty
      book; the arguments are not used. */
  function ShowAll(args: seq<string>, book: AddressBook, render: Record -> string): (reply: Reply)
    reads book
    requires book.Valid()
    ensures reply.Ok?
    ensures book.names == [] ==> reply.msg == EmptyBookText
    ensures HasText(Rendered(book.Values(), render)) ==> reply.msg == Join(Rendered(book.Values(), render), "\n")
  {
    Ok(JoinedOr(Rendered(book.Values(), render), "\n", EmptyBookText))
  }

  /** `show_phone`: the phones of the named contact, one per line. */
  function ShowPhone(args: seq<string>, book: AddressBook): (reply: Reply)
    reads book
    requires book.Valid()
    ensures |args| == 0 ==> reply == Err("Give me the name, please.")
    ensures |args| >= 1 && args[0] !in book.data ==> reply == Err("The contact not found")
    ensures |args| >= 1 && args[0] in book.data ==> reply.Ok?
    ensures |args| >= 1 && args[0] in book.data && book.data[args[0]].phones == [] ==>
      reply.msg == NoPhonesText
    ensures |args| >= 1 && args[0] in book.data && HasText(book.data[args[0]].phones) ==>
      reply.msg == Join(book.data[args[0]].phones, "\n")
  {
    if |args| < 1 then InputError(NameUsage, InvalidArguments)
    else
      match book.Find(args[0])
      case Failure(e) => InputError(NameUsage, e)
      case Success(contact) => Ok(JoinedOr(contact.phones, "\n", NoPhonesText))
  }

  /** `show_contact_birthday`: the named contact's date of birth, or a notice that it has none. */
  function ShowContactBirthday(args: seq<string>, book: AddressBook): (reply: Reply)
    reads book
    requires book.Valid()
    ensures |args| == 0 ==> reply == Err("Give me the name, please.")
    ensures |args| >= 1 && args[0] !in book.data ==> reply == Err("The contact not found")
    ensures |args| >= 1 && args[0] in book.data ==>
      reply == Ok(match book.data[args[0]].birthday
                  case Some(text) => text
                  case None => NoBirthdayText)
  {
    if |args| < 1 then InputError(NameUsage, InvalidArguments)
    else
      match book.Find(args[0])
      case Failure(e) => InputError(NameUsage, e)
      case Success(contact) =>
        if contact.birthday.Some? then Ok(contact.birthday.value) else Ok(NoBirthdayText)
  }

  /** `name, *_ = args`: the lookups read the first argument only. */
  lemma LookupsIgnoreExtraArguments(args: seq<string>, book: AddressBook)
    requires book.Valid() && |args| >= 1
    ensures ShowPhone(args, book) == ShowPhone(args[..1], book)
    ensures ShowContactBirthday(args, book) == ShowContactBirthday(args[..1], book)
  {
  }

  /** What a handler that finds the named contact and updates it through `update` leaves
      behind: a missing contact and a refused update report their error and change nothing;
      otherwise the contact's record is the updated one and the reply is `done`. */
  ghost predicate UpdatedContact(before: BookState, after: BookState, reply: Reply, name: string,
                                 update: Record -> Result<Record>, done: string, custom: Custom)
  {
    if name !in before.data then reply == InputError(custom, ContactNotFound) && after == before
    else
      match update(before.data[name])
      case Success(r) => reply == Ok(done) && after == before.(data := before.data[name := r])
      case Failure(e) => reply == InputError(custom, e) && after == before
  }

  /** The shared shape of `change_contact`, `add_contact_birthday` and
      `change_contact_birthday`: `book.find(name)` and then a mutator on the record found. */
  method UpdateContact(book: AddressBook, name: string, update: Record -> Result<Record>,
                       done: string, custom: Custom) returns (reply: Reply)
    requires book.Valid()
    requires forall r :: update(r).Success? ==> update(r).value.name == r.name
    modifies book
    ensures book.Valid()
    ensures UpdatedContact(old(book.State()), book.State(), reply, name, update, done, custom)
  {
    var found := book.Find(name);
    if found.Failure? {
      return InputError(custom, found.error);
    }
    var updated := update(found.value);
    if updated.Failure? {
      return InputError(custom, updated.error);
    }
    book.Replace(name, updated.value);
    reply := Ok(done);
  }

  /** `change_contact name old new`: replaces one phone number of the contact. */
  method ChangeContact(args: seq<string>, book: AddressBook, api: RecordApi) returns (reply: Reply)
    requires book.Valid() && api.KeepsNames()
    modifies book
    ensures book.Valid()
    ensures |args| < 3 ==>
      reply == Err("Give me the name, existing phone number and new phone number, please.") &&
      book.State() == old(book.State())
    ensures |args| >= 3 ==>
      UpdatedContact(old(book.State()), book.State(), reply, args[0],
                     r => api.editPhone(r, args[1], args[2]), "Contact updated.", ChangeUsage)
  {
    if |args| < 3 {
      return InputError(ChangeUsage, InvalidArguments);
    }
    reply := UpdateContact(book, args[0], r => api.editPhone(r, args[1], args[2]), "Contact updated.", ChangeUsage);
  }

  /** `add_contact_birthday name date`: sets the contact's date of birth. */
  method AddContactBirthday(args: seq<string>, book: AddressBook, api: RecordApi) returns (reply: Reply)
    requires book.Valid() && api.KeepsNames()
    modifies book
    ensures book.Valid()
    ensures |args| < 2 ==>
      reply == Err("Give me the name and date of birth, please.") && book.State() == old(book.State())
    ensures |args| >= 2 ==>
      UpdatedContact(old(book.State()), book.State(), reply, args[0],
                     r => api.addBirthday(r, args[1]), "Date of birth added.", BirthdayUsage)
  {
    if |args| < 2 {
      return InputError(BirthdayUsage, InvalidArguments);
    }
    reply := UpdateContact(book, args[0], r => api.addBirthday(r, args[1]), "Date of birth added.", BirthdayUsage);
  }

  /** `change_contact_birthday name date`: replaces the contact's date of birth. */
  method ChangeContactBirthday(args: seq<string>, book: AddressBook, api: RecordApi) returns (reply: Reply)
    requires book.Valid() && api.KeepsNames()
    modifies book
    ensures book.Valid()
    ensures |args| < 2 ==>
      reply == Err("Give me the name and date of birth, please.") && book.State() == old(book.State())
    ensures |args| >= 2 ==>
      UpdatedContact(old(book.State()), book.State(), reply, args[0],
                     r => api.editBirthday(r, args[1]), "Date of birth updated.", BirthdayUsage)
  {
    if |args| < 2 {
      return InputError(BirthdayUsage, InvalidArguments);
    }
    reply := UpdateContact(book, args[0], r => api.editBirthday(r, args[1]), "Date of birth updated.", BirthdayUsage);
  }

  /** What `add_contact name phone` leaves behind. A phone that the existing contact takes
      updates it. Any other refusal is reported, except ContactNotFound, which also
      covers a missing contact: then a new record with that phone is created and added,
      and a refusal there is reported too. */
  ghost predicate AddedContact(before: BookState, after: BookState, reply: Reply, name: string,
                               phone: string, api: RecordApi)
    requires before.Valid()
  {
    var found := if name in before.data then api.addPhone(before.data[name], phone) else Failure(ContactNotFound);
    if found.Success? then
      reply == Ok("Contact updated.") && after == before.(data := before.data[name := found.value])
    else if found.error != ContactNotFound then
      reply == InputError(AddUsage, found.error) && after == before
    else
      match api.create(name, [phone])
      case Failure(e) => reply == InputError(AddUsage, e) && after == before
      case Success(contact) =>
        if contact.name in before.data then
          reply == Err("The contact already exists") && after == before
        else
          reply == Ok("Contact added.") && after == before.Inserted(contact)
  }

  /** `add_contact name phone`: adds the phone to an existing contact, or creates the contact. */
  method AddContact(args: seq<string>, book: AddressBook, api: RecordApi) returns (reply: Reply)
    requires book.Valid() && api.KeepsNames()
    modifies book
    ensures book.Valid()
    ensures |args| < 2 ==>
      reply == Err("Give me the name and phone number, please.") && book.State() == old(book.State())
    ensures |args| >= 2 ==> AddedContact(old(book.State()), book.State(), reply, args[0], args[1], api)
  {
    if |args| < 2 {
      return InputError(AddUsage, InvalidArguments);
    }
    var name, phone := args[0], args[1];
    var found := book.Find(name);
    if found.Success? {
      var updated := api.addPhone(found.value, phone);
      if updated.Success? {
        book.Replace(name, updated.value);
        return Ok("Contact updated.");
      } else if updated.error != ContactNotFound {
        return InputError(AddUsage, updated.error);
      }
    }
    var created := api.create(name, [phone]);
    if created.Failure? {
      return InputError(AddUsage, created.error);
    }
    var added := book.AddRecord(created.value);
    if added.Failure? {
      return InputError(AddUsage, added.error);
    }
    reply := Ok("Contact added.");
  }

  /** `delete_contact name`: removes the contact; afterwards `show_phone` does not find it. */
  method DeleteContact(args: seq<string>, book: AddressBook) returns (reply: Reply)
    requires book.Valid()
    modifies book
    ensures book.Valid()
    ensures |args| == 0 ==> reply == Err("Give me the name, please.") && book.State() == old(book.State())
    ensures |args| >= 1 && args[0] !in old(book.data) ==>
      reply == Err("The contact not found") && book.State() == old(book.State())
    ensures |args| >= 1 && args[0] in old(book.data) ==>
      reply == Ok("Contact deleted.") && book.State() == old(book.State()).Removed(args[0])
    ensures |args| >= 1 ==> ShowPhone(args[..1], book) == Err("The contact not found")
  {
    if |args| < 1 {
      return InputError(NameUsage, InvalidArguments);
    }
    var deleted := book.DeleteRecord(args[0]);
    if deleted.Failure? {
      return InputError(NameUsage, deleted.error);
    }
    reply := Ok("Contact deleted.");
  }

  const Rule := "\n---\n"

  /** One date's block of the upcoming-birthdays text: a rule, the date, and the records
      due on it, one per line. */
  function GroupText(g: Group, formatDate: Date -> string, render: Record -> string): (r: string)
    ensures |r| > |Rule| + |formatDate(g.date)|
    ensures r[..|Rule|] == Rule
    ensures r[|Rule|..|Rule| + |formatDate(g.date)|] == formatDate(g.date)
    ensures r[|Rule| + |formatDate(g.date)|] == '\n'
  {
    Rule + formatDate(g.date) + "\n" + Join(Rendered(g.contacts, render), "\n")
  }

  /** The blocks of the given groups, in order. */
  function GroupsText(groups: seq<Group>, formatDate: Date -> string, render: Record -> string): (r: string)
    ensures groups != [] ==> |r| > 0 && r[0] == '\n'
  {
    if groups == [] then ""
    else
      var init := GroupsText(groups[..|groups| - 1], formatDate, render);
      init + GroupText(groups[|groups| - 1], formatDate, render)
  }

  /** The `+=` loop of `show_upcoming_birthdays`: the blocks of the groups, in order. */
  method BlocksText(groups: seq<Group>, formatDate: Date -> string, render: Record -> string)
    returns (text: string)
    ensures text == GroupsText(groups, formatDate, render)
  {
    text := "";
    for i := 0 to |groups|
      invariant text == GroupsText(groups[..i], formatDate, render)
    {
      ghost var before := text;
      text := text + Rule;
      text := text + formatDate(groups[i].date);
      text := text + "\n";
      text := text + Join(Rendered(groups[i].contacts, render), "\n");
      assert text == before + GroupText(groups[i], formatDate, render);
      assert groups[..i + 1][..i] == groups[..i];
    }
    assert groups[..|groups|] == groups;
  }

  /** `show_upcoming_birthdays`: a block per congratulation date in ascending order, closed
      by a final rule, or a notice when nobody's birthday falls in the book's window; the
      arguments are not used. `today` is the date the book is asked on. */
  method ShowUpcomingBirthdays(args: seq<string>, book: AddressBook, today: Date, api: RecordApi,
                               formatDate: Date -> string) returns (reply: Reply)
    requires book.Valid()
    ensures reply.Ok?
    ensures var groups := GroupByDate(UpcomingOf(book.Values(), today, book.window, api.nextBirthday));
      (groups == [] ==> reply.msg == NoUpcomingText) &&
      (groups != [] ==> reply.msg == GroupsText(groups, formatDate, api.render) + Rule)
  {
    var groups := book.UpcomingBirthdaysByDays(today, api.nextBirthday);
    var text := BlocksText(groups, formatDate, api.render);
    if text != "" {
      text := text + Rule;
    }
    reply := Ok(if text == "" then NoUpcomingText else text);
  }
}
