# Contacts bot: address book and command layer

A Dafny model of the contacts assistant bot's address book and of its command layer.

The address book is tasks/address_book/book.py. It maps contact names to records, in insertion order. It also holds a birthday-congratulation window, 7 days by default, and an optional data-file path. It:

- refuses a duplicate name on `add_record`;
- finds and deletes records by name;
- collapses duplicate names silently at construction, keeping the first;
- computes each contact's congratulation date (the next birthday, kept only when it lies 0 to `window` days ahead, with a Saturday or Sunday moved to the following Monday);
- lists the upcoming birthdays in book order;
- groups the upcoming birthdays by date, in ascending order.

Saving and loading are modelled on what the file system and pickle report.

The command layer is tasks/contacts_bot.py:

- `parse_input` splits a typed line on white space and lower-cases the command;
- the `input_error` wrapper maps an exception to the error reply `(ERROR_TEXT_COLOR, message)`;
- the handlers check their argument counts, then find, add, update or delete through the book.

Modules:

- `Wrappers`: `Option`.
- `Seqs`: sequences without repeated elements, used for the book's name order and the grouping's date keys.
- `Errors`: the exception classes of tasks/address_book/error/exceptions.py as one datatype. It also gives the built-in class each one derives from (KeyError, ValueError, neither) and its message. `InvalidArguments` stands for the handlers' `IndexError("Invalid command arguments")`.
- `Text`: Python's `str.split()` with no separator, over the full `str.isspace` character set; `"sep".join`; ASCII lower-casing.
- `Dates`: a date is its proleptic Gregorian day number, as `date.toordinal()` gives it. 0001-01-01 is day 1, a Monday. The module also has ISO weekdays, the weekend shift, and ascending sorting of distinct dates.
- `Records`: the record as the book and the bot see it, plus `RecordApi`, which bundles the record module's operations as function values.
- `Book`: `BookState` holds the book's contents as a value; it is well formed when its names are distinct, list exactly the keys, and each record is stored under its own name. Its specification functions describe construction, the congratulation date, the yield of `upcoming_birthdays` and the grouping of `upcoming_birthdays_by_days`. The class `AddressBook` has the mutable fields and the methods.
- `Storage`: `__getstate__`, `save` and `load` as functions of the book's state and the file system's answer.
- `Bot`: `ParseInput`, `InputError` and the handlers. Each handler returns `Ok(text)` or `Err(message)`. Handlers that change the book are methods with `modifies book`, and their contracts give the whole new state. Read-only handlers are functions on the book.

The calendar facts are proved at the level of day numbers:

- a weekend birthday moves to the first weekday after it;
- the result is never a weekend;
- the result can lie up to `window + 2` days ahead, because the window is checked before the shift.

The grouping is proved to hold every yielded record exactly once, under its own date, in yield order, with strictly ascending dates.

## Model

| member | source | states |
|---|---|---|
| Book.BookState.Removed | tasks/address_book/book.py:108-112 | popping a present name removes exactly that key, keeps the other entries and their values, and takes exactly the name's position out of the iteration order; window and data file are unchanged |
| Book.BookState.Inserted | tasks/address_book/book.py:101 | storing a record under its own new name keeps the book well formed: distinct names listing exactly the keys, each record under its own name |
| Book.InsertedAppends | tasks/address_book/book.py:97-101 | adding a new name gains exactly that key, mapped to the record; every other entry is unchanged; the book now iterates over its old values followed by the new record |
| Book.RemovedKeepsOrder | tasks/address_book/book.py:108-112 | after deleting a present name, the remaining values keep their order, with exactly one position taken out |
| Book.ValuesWithoutAt | tasks/address_book/book.py:112 | taking one name out of the iteration order takes the value at that position out of `values()` |
| Book.EmptyBook | tasks/address_book/book.py:181-183 | a book created with no contacts is well formed and has no values |
| Book.Seeded | tasks/address_book/book.py:29-34 | construction from a list of contacts gives a well-formed book (distinct keys, the order listing exactly the keys), with the given window and data file |
| Book.SeededHas | tasks/address_book/book.py:32-34 | the constructed book has a key exactly when some contact passed in has that name |
| Book.SeededFirstWins | tasks/address_book/book.py:32-34 | the record stored under a name is the first contact with that name; later duplicates are dropped |
| Book.SeededValues | tasks/address_book/book.py:32-34 | the constructed book iterates over the first contact of each name, in argument order |
| Book.AddressBook.constructor | tasks/address_book/book.py:20-34 | the new book is the seeded book of its contacts; a window of 0 falls back to 7, any other window is kept; the data file is the one given |
| Book.AddressBook.Find | tasks/address_book/book.py:86-90 | succeeds exactly when the name is a key, returning the stored record; fails with ContactNotFound otherwise |
| Book.AddressBook.AddRecord | tasks/address_book/book.py:97-101 | a record whose name is present fails with ContactAlreadyExist and leaves the book unchanged; otherwise, the book becomes its old state with the record inserted under its name |
| Book.AddressBook.DeleteRecord | tasks/address_book/book.py:108-112 | an absent name fails with ContactNotFound and leaves the book unchanged; a present name is removed; afterwards a `find` on the name fails |
| Book.AddressBook.Replace | tasks/contacts_bot.py:150 | a record mutated in place through `find`, keeping its name, replaces the stored value under that name; the book stays well formed and nothing else changes |
| Dates.IsoWeekday | tasks/address_book/book.py:69 | the ISO weekday of a day number lies in 1..7 |
| Dates.WeekendShift | tasks/address_book/book.py:69-71 | the shifted date is 0 to 2 days after the birthday and is never a weekend; it equals the birthday exactly when that is not a weekend; a weekend birthday lands on a Monday |
| Dates.WeekendShiftIsFirstWeekday | tasks/address_book/book.py:69-71 | Saturday moves by 2 days and Sunday by 1; every day skipped is a weekend day, so the result is the first weekday on or after the birthday |
| Dates.Insert | tasks/address_book/book.py:146 | inserting a new date into a strictly ascending list keeps it strictly ascending and adds exactly that date |
| Dates.SortDates | tasks/address_book/book.py:146 | `sorted` of the distinct congratulation dates is strictly ascending and has the same dates |
| Book.CongratulationDate | tasks/address_book/book.py:60-74 | present exactly when there is a next birthday 0 to `window` days ahead of `today`; then the weekend-shifted birthday, never a weekend and at most `window + 2` days ahead |
| Book.CongratulationExample | tasks/address_book/book.py:60-71 | on Tuesday 2002-06-25 with a window of 7, a Saturday 2002-06-29 birthday is congratulated on Monday 2002-07-01, and a birthday next due in 2003 is not upcoming |
| Book.YieldedAt | tasks/address_book/book.py:126-130 | each yielded pair comes from a position of the book's values holding its contact, and the positions strictly increase: the pairs come in book order and no position is yielded twice |
| Book.YieldedOnce | tasks/address_book/book.py:126-130 | over a well-formed book, no two yielded records carry the same name: each contact is yielded at most once |
| Book.UpcomingOfMember | tasks/address_book/book.py:127-130 | an entry `(contact, date)` is yielded exactly when the contact is in the book and its congratulation date, against the same `today`, is that date |
| Book.UpcomingDatesInRange | tasks/address_book/book.py:63-71 | every yielded date is a weekday between `today` and `today + window + 2` |
| Book.AddressBook.UpcomingBirthdays | tasks/address_book/book.py:126-130 | the loop yields exactly the upcoming entries of the book's values in iteration order, against the given `today` and the book's window |
| Book.DatesOf | tasks/address_book/book.py:141-143 | the keys of the grouping dictionary: distinct, and exactly the dates yielded |
| Book.RecordsOn | tasks/address_book/book.py:141-143 | the list under a date holds no more records than were yielded, and each of them was yielded with that date |
| Book.RecordsOnMember | tasks/address_book/book.py:142-143 | a record is in the list under a date exactly when it was yielded with that date |
| Book.RecordsOnUnseen | tasks/address_book/book.py:141-143 | a date never yielded has no records |
| Book.RecordsOnSnoc | tasks/address_book/book.py:142-143 | one more yielded entry appends its record to the list of its own date, and to no other |
| Book.GroupByDate | tasks/address_book/book.py:141-146 | the groups' dates are strictly ascending, and there is one group per distinct date yielded |
| Book.GroupByDateContents | tasks/address_book/book.py:141-146 | each group is non-empty; its records are exactly those yielded with its date, in yield order |
| Book.GroupByDateFiles | tasks/address_book/book.py:142-143 | every yielded record appears in the group of its own date |
| Book.AllContactsNone | tasks/address_book/book.py:141 | grouping nothing lists no records |
| Book.AllContactsCons | tasks/address_book/book.py:146 | the listed records are those of the first key followed by those of the rest |
| Book.AllContactsStep | tasks/address_book/book.py:142-143 | one more yielded entry adds its record once to the listing, when its date is a key |
| Book.AllContactsGathers | tasks/address_book/book.py:141-146 | when every yielded date is a key, the listing holds every yielded record as often as it was yielded |
| Book.GroupByDateKeepsAll | tasks/address_book/book.py:141-146 | the grouping lists every yielded record exactly as often as it was yielded, and the total count equals the number yielded |
| Book.Bucket | tasks/address_book/book.py:141-143 | the `defaultdict(list)` loop gives a bucket exactly for each date yielded, keyed in first-seen order, each holding that date's records in yield order |
| Book.GroupBuckets | tasks/address_book/book.py:146 | the buckets taken in the order of the sorted keys are exactly the groups for those keys |
| Book.AddressBook.UpcomingBirthdaysByDays | tasks/address_book/book.py:141-146 | the bucket loop and the sort give exactly the grouping of the book's upcoming entries by ascending date |
| Storage.Save | tasks/address_book/book.py:148-162 | without a data file nothing is written (False); a path that exists but is not a regular file fails with DataFileWrongFormat(path); otherwise the snapshot is written to the data file |
| Storage.Load | tasks/address_book/book.py:164-183 | fails exactly for a path that is not a regular file or a file that does not unpickle, and then with DataFileWrongFormat(path); a success is always bound to the path read; a missing file gives a well-formed empty book with window 7; a pickled book comes back with the same records, order and window |
| Storage.SaveThenLoad | tasks/address_book/book.py:148-183 | saving a book that has a data file, then loading that file, gives back exactly the same book |
| Storage.SnapshotRelocates | tasks/address_book/book.py:36-41 | a snapshot loaded from a different file is the same book bound to that file |
| Storage.FirstRunSaves | tasks/address_book/book.py:181-183 | loading a missing file gives a book whose save writes that file with an empty snapshot |
| Text.WordEnd | tasks/contacts_bot.py:57 | the end of the leading word lies within the text |
| Text.Split | tasks/contacts_bot.py:57 | every token of `split()` is non-empty and holds no white space |
| Text.SplitKeepsText | tasks/contacts_bot.py:57 | the tokens, concatenated, are the text's non-space characters in order |
| Text.SplitEmptyIff | tasks/contacts_bot.py:57-61 | `split()` gives no tokens exactly when the line is all white space |
| Text.SplitJoin | tasks/contacts_bot.py:57 | words joined by single spaces split back to the same words |
| Text.Join | tasks/contacts_bot.py:106 | the joined text is as long as the parts together plus one separator between each pair of neighbours, and starts with the first part |
| Text.JoinEmptyIff | tasks/contacts_bot.py:106 | a join is empty exactly when every part is empty and there is at most one part, or the separator is empty |
| Text.Lower | tasks/contacts_bot.py:58 | lower-casing keeps the length, leaves no capital ASCII letter, and keeps every character that is not one |
| Text.LowerIdempotent | tasks/contacts_bot.py:58 | lower-casing an already lower-cased text changes nothing |
| Text.LowerKeepsWord | tasks/contacts_bot.py:58 | a lower-cased word is still a word |
| Bot.ParseInput | tasks/contacts_bot.py:56-61 | always at least one element; `("",)` exactly when the line has no words; otherwise, the first token lower-cased, then the remaining tokens unchanged |
| Bot.ParseJoinedWords | tasks/contacts_bot.py:57-59 | a line of words separated by single spaces parses to those words, with only the first lower-cased |
| Bot.ParsedArgumentsAreWords | tasks/contacts_bot.py:57 | every argument handed to a command is non-empty and holds no white space |
| Bot.InputError | tasks/contacts_bot.py:83-91 | always an error reply; when a non-empty custom message is given for the exception's kind, the reply uses it; otherwise it uses the exception's own first argument |
| Bot.OrElse | tasks/contacts_bot.py:85-89 | `message or fallback` gives the fallback or the message itself, and is empty only when the fallback and the message are both empty or absent |
| Bot.IndexMessageOnly | tasks/address_book/error/exceptions.py:8-25 | a wrapper given only an index message uses it for missing arguments and reports every book or record error by its own message |
| Bot.JoinedOr | tasks/contacts_bot.py:106 | `join(...) or fallback`: the fallback for no parts, the join whenever some part is non-empty |
| Bot.ShowAll | tasks/contacts_bot.py:98-106 | "The address book is empty." for an empty book; otherwise, when some record renders non-empty, the records' texts in book order, one per line |
| Bot.ShowPhone | tasks/contacts_bot.py:119-128 | no name gives the usage error; an unknown name gives "The contact not found"; otherwise, the phones one per line, or the no-phones notice when the contact has none |
| Bot.ShowContactBirthday | tasks/contacts_bot.py:265-274 | no name gives the usage error; an unknown name gives "The contact not found"; otherwise, the birthday, or the no-birthday notice |
| Bot.LookupsIgnoreExtraArguments | tasks/contacts_bot.py:123 | the look-up handlers read only the first argument |
| Bot.UpdateContact | tasks/contacts_bot.py:175-180 | an unknown name or a refused update reports its error and leaves the book unchanged; otherwise, the contact's record is replaced by the updated one and the reply is the success text |
| Bot.ChangeContact | tasks/contacts_bot.py:168-180 | fewer than 3 arguments gives the usage error and leaves the book unchanged; otherwise, `edit_phone(old, new)` on the named contact, with the outcome of `UpdateContact` |
| Bot.AddContactBirthday | tasks/contacts_bot.py:215-227 | fewer than 2 arguments gives the usage error and leaves the book unchanged; otherwise, `add_birthday` on the named contact, answering "Date of birth added." |
| Bot.ChangeContactBirthday | tasks/contacts_bot.py:240-252 | fewer than 2 arguments gives the usage error and leaves the book unchanged; otherwise, `edit_birthday` on the named contact, answering "Date of birth updated." |
| Bot.AddContact | tasks/contacts_bot.py:141-155 | fewer than 2 arguments gives the usage error and leaves the book unchanged. A known name whose record takes the phone is updated in place, with no new key. A refusal other than ContactNotFound is reported, with the book unchanged. Otherwise a record is created with exactly that one phone and added as a new key: "Contact added.", or "The contact already exists" |
| Bot.DeleteContact | tasks/contacts_bot.py:193-202 | no name gives the usage error; an unknown name gives "The contact not found"; both leave the book unchanged. A known name is removed with "Contact deleted.", and `show_phone` on it then reports that the contact is not found |
| Bot.GroupsText | tasks/contacts_bot.py:287-291 | the text of one or more groups starts with a line break |
| Bot.GroupText | tasks/contacts_bot.py:288-291 | a date's block starts with the `---` rule, then the formatted date, then a line break |
| Bot.BlocksText | tasks/contacts_bot.py:285-291 | the `+=` loop builds exactly the blocks of the groups, in order |
| Bot.ShowUpcomingBirthdays | tasks/contacts_bot.py:285-295 | "There are currently no upcoming birthdays." when the grouping is empty. Otherwise, per group in ascending date order: a rule, the formatted date and the records one per line, with a closing rule after the last group |

## Left out

- tasks/address_book/record.py is not part of this model. The record's constructor, `add_phone`, `edit_phone`, `add_birthday`, `edit_birthday`, `next_birthday` and `str(record)` are parameters, bundled in `RecordApi`. Each returns the updated record or the error raised, and changes nothing when it raises. Phone and e-mail validation follow from this.
- A record mutated in place through `find` is modelled as a value written back with `Replace`. Aliasing between a record object and the book is not modelled.
- `upcoming_birthdays` reads the clock with `datetime.datetime.today()` (book.py:57, 126); `today` is a parameter.
- `save` creates only the immediate parent directory (`mkdir(exist_ok=True)`, book.py:155); directory creation is not modelled.
- The record mutators `add_phone`, `edit_phone`, `add_birthday` and `edit_birthday` are assumed to keep the record's name (`RecordApi.KeepsNames`, required by the handlers that call them), since the record module is not part of this model and the book keys each record by its name.
- The generic re-raise in `__congratulation_date` (book.py:75-78) catches only foreign-library failures; date overflow cannot happen on day numbers, since 9999-12-31 is a Friday.
- The file system and pickle are not modelled. `load` and `save` see only the kind of path and what unpickling gives, and `mkdir` of the parent directory is left out.
- `strftime("%d.%m.%Y")` is the `formatDate` parameter of `ShowUpcomingBirthdays`, and `str(record)` is `RecordApi.render`.
- Text.Lower: lower-cases ASCII letters only, because Python's full Unicode case mapping is not modelled.
- Bot.ShowAll: when every record renders to the empty text, its contract does not say which of the two texts is shown.
- Bot.ShowPhone: when every phone renders to the empty text, its contract does not say which of the two texts is shown.
- `upcoming_birthdays` is a lazy generator. It is modelled as the finite sequence it yields.
- `main`, the signal handlers, `contacts_bot_data` and the command dispatch loop are not modelled, because they are interactive I/O and process control.
- The console printing in tasks/cutil, the file helpers in tasks/futil and the help text are not modelled, because they are console and file I/O or constant text.
- Contact e-mails are not modelled. No modelled handler or book operation touches them.
