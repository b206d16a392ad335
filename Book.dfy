/** The address book (tasks/address_book/book.py): an insertion-ordered map from contact
    name to record, its congratulation window and its optional data file, with unique-name
    insertion, lookup and deletion and the birthday-congratulation schedule. */
module Book {
  import opened Wrappers
  import opened Errors
  import opened Seqs
  import opened Dates
  import opened Records

  /** The window the constructor falls back to when given 0. */
  const DefaultWindow: int := 7

  /** The contents of an address book: `names` lists the keys of `data` in insertion
      order (the order the dictionary iterates in), `window` is the congratulation range
      in days and `datafile` the optional data-file path. */
  datatype BookState = BookState(names: seq<string>, data: map<string, Record>, window: int, datafile: Option<string>)
  {
    /** The names are distinct and list exactly the keys, and every record is stored
        under its own name (`self.data[str(contact.name)] = contact`). */
    predicate Valid() {
      && Distinct(names)
      && (forall k :: k in data ==> k in names && data[k].name == k)
      && (forall k :: k in names ==> k in data)
    }

    /** `book.values()`, in iteration order. */
    function Values(): (vs: seq<Record>)
      requires Valid()
      ensures |vs| == |names|
      ensures forall i :: 0 <= i < |names| ==> vs[i] == data[names[i]]
    {
      seq(|names|, i requires 0 <= i < |names| => data[names[i]])
    }

    /** The book after `self.data[str(contact.name)] = contact` for a new name: the name
        is appended to the iteration order and nothing else changes. */
    function Inserted(r: Record): (s: BookState)
      requires Valid() && r.name !in data
      ensures s.Valid()
    {
      this.(names := names + [r.name], data := data[r.name := r])
    }

    /** The book after `self.pop(name)` of a present name. */
    function Removed(name: string): (s: BookState)
      requires Valid() && name in data
      ensures s.Valid()
      ensures s.data.Keys == data.Keys - {name}
      ensures forall k :: k in s.data ==> s.data[k] == data[k]
      ensures exists i :: 0 <= i < |names| && names[i] == name && s.names == names[..i] + names[i + 1..]
      ensures s.window == window && s.datafile == datafile
    {
      WithoutOnce(names, name);
      this.(names := Without(names, name), data := data - {name})
    }
  }

  /** `add_record` of a new name: the book gains exactly that key, mapped to the record,
      keeps every other entry, and iterates over its old values followed by the record. */
  lemma InsertedAppends(s: BookState, r: Record)
    requires s.Valid() && r.name !in s.data
    ensures s.Inserted(r).data.Keys == s.data.Keys + {r.name}
    ensures s.Inserted(r).data[r.name] == r
    ensures forall k :: k in s.data ==> s.Inserted(r).data[k] == s.data[k]
    ensures s.Inserted(r).Values() == s.Values() + [r]
    ensures s.Inserted(r).window == s.window && s.Inserted(r).datafile == s.datafile
  {
    var t := s.Inserted(r);
    assert forall i :: 0 <= i < |s.names| ==> t.names[i] == s.names[i] != r.name;
  }

  /** `delete_record` of a present name: the other values keep their order, one position
      is taken out. */
  lemma RemovedKeepsOrder(s: BookState, name: string)
    requires s.Valid() && name in s.data
    ensures exists i :: 0 <= i < |s.names| && s.names[i] == name
                     && s.Removed(name).Values() == s.Values()[..i] + s.Values()[i + 1..]
  {
    var i :| 0 <= i < |s.names| && s.names[i] == name;
    WithoutAt(s.names, name, i);
    var t := s.Removed(name);
    assert t.names == s.names[..i] + s.names[i + 1..];
    ValuesWithoutAt(s, t, i);
  }

  lemma ValuesWithoutAt(s: BookState, t: BookState, i: nat)
    requires s.Valid() && t.Valid() && i < |s.names|
    requires t.names == s.names[..i] + s.names[i + 1..]
    requires forall k :: k in t.data ==> k in s.data && t.data[k] == s.data[k]
    ensures t.Values() == s.Values()[..i] + s.Values()[i + 1..]
  {
    var vs, ws := s.Values(), t.Values();
    var cut := vs[..i] + vs[i + 1..];
    forall k | 0 <= k < |ws| ensures ws[k] == cut[k] {
      var k' := if k < i then k else k + 1;
      assert t.names[k] == s.names[k'];
      assert cut[k] == vs[k'];
    }
  }

  function Without(names: seq<string>, x: string): (r: seq<string>)
    ensures forall y :: y in r <==> y in names && y != x
  {
    if names == [] then []
    else (if names[0] == x then [] else [names[0]]) + Without(names[1..], x)
  }

  /** Removing a name that occurs once takes out exactly that position. */
  lemma WithoutOnce(names: seq<string>, x: string)
    requires Distinct(names) && x in names
    ensures exists i :: 0 <= i < |names| && names[i] == x && Without(names, x) == names[..i] + names[i + 1..]
    ensures Distinct(Without(names, x))
  {
    var i :| 0 <= i < |names| && names[i] == x;
    WithoutAt(names, x, i);
    DistinctRemove(names, i);
  }

  lemma {:induction false} WithoutAt(names: seq<string>, x: string, i: nat)
    requires Distinct(names) && i < |names| && names[i] == x
    ensures Without(names, x) == names[..i] + names[i + 1..]
    decreases i
  {
    DistinctTail(names);
    if i == 0 {
      assert forall k :: 0 <= k < |names[1..]| ==> names[1..][k] == names[k + 1] != names[0];
      WithoutAbsent(names[1..], x);
    } else {
      WithoutAt(names[1..], x, i - 1);
      assert names[0] != x;
      assert names[..i] == [names[0]] + names[1..][..i - 1];
      assert names[i + 1..] == names[1..][i..];
    }
  }

  lemma {:induction false} WithoutAbsent(names: seq<string>, x: string)
    requires x !in names
    ensures Without(names, x) == names
  {
    if names != [] {
      WithoutAbsent(names[1..], x);
      assert names == [names[0]] + names[1..];
    }
  }

  function EmptyBook(window: int, datafile: Option<string>): (s: BookState)
    ensures s.Valid() && s.Values() == []
  {
    BookState([], map[], window, datafile)
  }

  /** What the constructor builds from its contacts: each is handed to `add_record`
      unless a record of that name is already in the book (book.py:32-34). */
  function Seeded(contacts: seq<Record>, window: int, datafile: Option<string>): (s: BookState)
    ensures s.Valid() && s.window == window && s.datafile == datafile
  {
    if contacts == [] then EmptyBook(window, datafile)
    else
      var s := Seeded(contacts[..|contacts| - 1], window, datafile);
      var c := contacts[|contacts| - 1];
      if c.name in s.data then s else s.Inserted(c)
  }

  /** Whether `contacts[j]` is the first contact with its name. */
  predicate IsFirst(contacts: seq<Record>, j: int)
    requires 0 <= j < |contacts|
  {
    forall k :: 0 <= k < j ==> contacts[k].name != contacts[j].name
  }

  /** The contacts that come first with their name, in argument order. */
  function FirstOccurrences(contacts: seq<Record>): seq<Record> {
    if contacts == [] then []
    else
      FirstOccurrences(contacts[..|contacts| - 1])
      + (if IsFirst(contacts, |contacts| - 1) then [contacts[|contacts| - 1]] else [])
  }

  /** A name is a key of the seeded book exactly when some contact carries it. */
  lemma {:induction false} SeededHas(contacts: seq<Record>, window: int, datafile: Option<string>, name: string)
    ensures name in Seeded(contacts, window, datafile).data <==>
      exists j :: 0 <= j < |contacts| && contacts[j].name == name
  {
    if contacts != [] {
      var init := contacts[..|contacts| - 1];
      SeededHas(init, window, datafile, name);
      if exists j :: 0 <= j < |init| && init[j].name == name {
        var j :| 0 <= j < |init| && init[j].name == name;
        assert contacts[j] == init[j];
      }
      if exists j :: 0 <= j < |contacts| && contacts[j].name == name {
        var j :| 0 <= j < |contacts| && contacts[j].name == name;
        if j < |init| { assert init[j] == contacts[j]; }
      }
    }
  }

  /** The record stored under a name is the first contact with that name: later
      duplicates are skipped, not errors. */
  lemma {:induction false} SeededFirstWins(contacts: seq<Record>, window: int, datafile: Option<string>, j: nat)
    requires j < |contacts| && IsFirst(contacts, j)
    ensures contacts[j].name in Seeded(contacts, window, datafile).data
    ensures Seeded(contacts, window, datafile).data[contacts[j].name] == contacts[j]
  {
    var init := contacts[..|contacts| - 1];
    var c := contacts[|contacts| - 1];
    var s := Seeded(init, window, datafile);
    if j < |init| {
      assert init[j] == contacts[j];
      assert IsFirst(init, j);
      SeededFirstWins(init, window, datafile, j);
    } else {
      SeededHas(init, window, datafile, c.name);
      assert forall k :: 0 <= k < |init| ==> init[k] == contacts[k];
    }
  }

  /** The seeded book iterates over the first contact of each name, in argument order. */
  lemma {:induction false} SeededValues(contacts: seq<Record>, window: int, datafile: Option<string>)
    ensures Seeded(contacts, window, datafile).Values() == FirstOccurrences(contacts)
  {
    if contacts != [] {
      var init := contacts[..|contacts| - 1];
      var c := contacts[|contacts| - 1];
      SeededValues(init, window, datafile);
      SeededHas(init, window, datafile, c.name);
      var s := Seeded(init, window, datafile);
      if c.name in s.data {
        var k :| 0 <= k < |init| && init[k].name == c.name;
        assert contacts[k] == init[k];
        assert !IsFirst(contacts, |contacts| - 1);
      } else {
        assert IsFirst(contacts, |contacts| - 1) by {
          forall k | 0 <= k < |contacts| - 1 ensures contacts[k].name != c.name {
            assert contacts[k] == init[k];
          }
        }
      }
    }
  }

  /** `__congratulation_date` (book.py:60-74), given the record's next birthday: none
      unless that birthday is 0 to `window` days ahead of `today`; a weekend birthday is
      moved to the following Monday, so the result can lie up to `window + 2` days ahead. */
  function CongratulationDate(next: Option<Date>, today: Date, window: int): (r: Option<Date>)
    ensures r.Some? <==> next.Some? && 0 <= next.value - today <= window
    ensures r.Some? ==> r.value == WeekendShift(next.value)
    ensures r.Some? ==> !IsWeekend(r.value) && 0 <= r.value - today <= window + 2
  {
    if next.None? || !(0 <= next.value - today <= window) then None
    else Some(WeekendShift(next.value))
  }

  /** Asked on Tuesday 2002-06-25 (day 731026) with the default window, a birthday on
      Saturday 2002-06-29 is congratulated on Monday 2002-07-01, and a birthday already
      past this year, next due on 2003-06-22, is not upcoming. */
  lemma CongratulationExample()
    ensures IsoWeekday(731026) == 2 && IsoWeekday(731030) == 6 && IsoWeekday(731032) == 1
    ensures CongratulationDate(Some(731030), 731026, DefaultWindow) == Some(731032)
    ensures CongratulationDate(Some(731026 + 362), 731026, DefaultWindow) == None
  {
    NextDayWeekday(731030);
  }

  /** The `UpcomingBirthday(contact, congratulation_date)` named tuple. */
  datatype Upcoming = Upcoming(contact: Record, date: Date)

  /** What `upcoming_birthdays` yields over `contacts`: every contact that has a
      congratulation date, with that date, in order, all against the same `today`. */
  function UpcomingOf(contacts: seq<Record>, today: Date, window: int, next: (Record, Date) -> Option<Date>): (u: seq<Upcoming>)
    ensures |u| <= |contacts|
  {
    if contacts == [] then []
    else
      var c := contacts[|contacts| - 1];
      var u := UpcomingOf(contacts[..|contacts| - 1], today, window, next);
      match CongratulationDate(next(c, today), today, window)
      case None => u
      case Some(d) => u + [Upcoming(c, d)]
  }

  /** A pair is yielded exactly when its record is one of the contacts and its date is that
      contact's congratulation date. */
  lemma {:induction false} UpcomingOfMember(contacts: seq<Record>, today: Date, window: int,
                                            next: (Record, Date) -> Option<Date>, x: Upcoming)
    ensures x in UpcomingOf(contacts, today, window, next) <==>
      exists i :: 0 <= i < |contacts| && contacts[i] == x.contact
               && CongratulationDate(next(contacts[i], today), today, window) == Some(x.date)
  {
    if contacts != [] {
      var init := contacts[..|contacts| - 1];
      UpcomingOfMember(init, today, window, next, x);
      if exists i :: 0 <= i < |contacts| && contacts[i] == x.contact
                  && CongratulationDate(next(contacts[i], today), today, window) == Some(x.date) {
        var i :| 0 <= i < |contacts| && contacts[i] == x.contact
              && CongratulationDate(next(contacts[i], today), today, window) == Some(x.date);
        if i < |init| { assert init[i] == contacts[i]; }
      }
      if x in UpcomingOf(init, today, window, next) {
        var i :| 0 <= i < |init| && init[i] == x.contact
              && CongratulationDate(next(init[i], today), today, window) == Some(x.date);
        assert contacts[i] == init[i];
      }
    }
  }

  /** Every yielded date is a weekday between `today` and `today + window + 2`. */
  lemma UpcomingDatesInRange(contacts: seq<Record>, today: Date, window: int,
                             next: (Record, Date) -> Option<Date>, x: Upcoming)
    requires x in UpcomingOf(contacts, today, window, next)
    ensures !IsWeekend(x.date) && today <= x.date <= today + window + 2
  {
    UpcomingOfMember(contacts, today, window, next, x);
  }

  /** The positions in `contacts` of the contacts `upcoming_birthdays` yields: one per
      yielded pair, strictly increasing, so the pairs come in book order and no position
      is yielded twice. */
  function YieldedAt(contacts: seq<Record>, today: Date, window: int, next: (Record, Date) -> Option<Date>): (p: seq<int>)
    ensures |p| == |UpcomingOf(contacts, today, window, next)|
    ensures forall i :: 0 <= i < |p| ==>
      0 <= p[i] < |contacts| && contacts[p[i]] == UpcomingOf(contacts, today, window, next)[i].contact
    ensures StrictlyAscending(p)
  {
    if contacts == [] then []
    else
      var last := |contacts| - 1;
      var init := contacts[..last];
      var rest := YieldedAt(init, today, window, next);
      assert forall i :: 0 <= i < |rest| ==> rest[i] < last && contacts[rest[i]] == init[rest[i]];
      match CongratulationDate(next(contacts[last], today), today, window)
      case None => rest
      case Some(_) =>
        var p := rest + [last];
        assert forall i :: 0 <= i < |rest| ==> p[i] == rest[i];
        p
  }

  /** Over a well-formed book, `upcoming_birthdays` yields each contact at most once: no
      two yielded records carry the same name. */
  lemma YieldedOnce(s: BookState, today: Date, next: (Record, Date) -> Option<Date>)
    requires s.Valid()
    ensures var u := UpcomingOf(s.Values(), today, s.window, next);
      forall i, j :: 0 <= i < j < |u| ==> u[i].contact.name != u[j].contact.name
  {
    var vs := s.Values();
    var u := UpcomingOf(vs, today, s.window, next);
    var p := YieldedAt(vs, today, s.window, next);
    forall i, j | 0 <= i < j < |u| ensures u[i].contact.name != u[j].contact.name {
      assert vs[p[i]].name == s.names[p[i]] && vs[p[j]].name == s.names[p[j]];
    }
  }

  /** The distinct dates of `u`, in the order they are first seen (the order in which the
      `defaultdict` gains its keys). */
  function DatesOf(u: seq<Upcoming>): (ds: seq<Date>)
    ensures Distinct(ds)
    ensures forall d :: d in ds <==> exists i :: 0 <= i < |u| && u[i].date == d
  {
    if u == [] then []
    else
      var init := u[..|u| - 1];
      var ds := DatesOf(init);
      assert forall i :: 0 <= i < |init| ==> init[i] == u[i];
      if u[|u| - 1].date in ds then ds else ds + [u[|u| - 1].date]
  }

  /** The records of `u` congratulated on `d`, in the order they were yielded: the list
      `upcoming_birthdays[d]` that the loop appends them to. */
  function RecordsOn(u: seq<Upcoming>, d: Date): (r: seq<Record>)
    ensures |r| <= |u|
    ensures forall i :: 0 <= i < |r| ==> Upcoming(r[i], d) in u
  {
    if u == [] then []
    else
      RecordsOn(u[..|u| - 1], d) + (if u[|u| - 1].date == d then [u[|u| - 1].contact] else [])
  }

  lemma {:induction false} RecordsOnMember(u: seq<Upcoming>, d: Date, r: Record)
    ensures r in RecordsOn(u, d) <==> Upcoming(r, d) in u
  {
    if u != [] {
      var init := u[..|u| - 1];
      RecordsOnMember(init, d, r);
      assert u == init + [u[|u| - 1]];
    }
  }

  lemma {:induction false} RecordsOnUnseen(u: seq<Upcoming>, d: Date)
    requires d !in DatesOf(u)
    ensures RecordsOn(u, d) == []
  {
    if u != [] {
      var init := u[..|u| - 1];
      assert forall i :: 0 <= i < |init| ==> init[i] == u[i];
      RecordsOnUnseen(init, d);
    }
  }

  /** One entry of the dictionary `upcoming_birthdays_by_days` returns. */
  datatype Group = Group(date: Date, contacts: seq<Record>)

  function GroupsFor(u: seq<Upcoming>, keys: seq<Date>): (g: seq<Group>)
    ensures |g| == |keys|
    ensures forall i :: 0 <= i < |keys| ==> g[i] == Group(keys[i], RecordsOn(u, keys[i]))
  {
    seq(|keys|, i requires 0 <= i < |keys| => Group(keys[i], RecordsOn(u, keys[i])))
  }

  /** `dict(sorted(upcoming_birthdays.items()))`: one group per distinct date, in
      ascending date order. */
  function GroupByDate(u: seq<Upcoming>): (g: seq<Group>)
    ensures forall i, j :: 0 <= i < j < |g| ==> g[i].date < g[j].date
    ensures |g| == |DatesOf(u)|
  {
    var keys := SortDates(DatesOf(u));
    var g := GroupsFor(u, keys);
    assert forall i :: 0 <= i < |g| ==> g[i].date == keys[i];
    g
  }

  /** A group holds exactly the records yielded with its date, in yield order, and is
      never empty. */
  lemma GroupByDateContents(u: seq<Upcoming>, j: nat, r: Record)
    requires j < |GroupByDate(u)|
    ensures r in GroupByDate(u)[j].contacts <==> Upcoming(r, GroupByDate(u)[j].date) in u
    ensures GroupByDate(u)[j].contacts == RecordsOn(u, GroupByDate(u)[j].date) != []
  {
    var keys := SortDates(DatesOf(u));
    RecordsOnMember(u, keys[j], r);
    assert keys[j] in DatesOf(u);
    var i :| 0 <= i < |u| && u[i].date == keys[j];
    RecordsOnMember(u, keys[j], u[i].contact);
  }

  /** Each yielded pair is filed in the group of its own date. */
  lemma GroupByDateFiles(u: seq<Upcoming>, i: nat)
    requires i < |u|
    ensures exists j :: 0 <= j < |GroupByDate(u)| && GroupByDate(u)[j].date == u[i].date
                     && u[i].contact in GroupByDate(u)[j].contacts
  {
    var keys := SortDates(DatesOf(u));
    assert u[i].date in DatesOf(u);
    assert u[i].date in keys;
    var j :| 0 <= j < |keys| && keys[j] == u[i].date;
    GroupByDateContents(u, j, u[i].contact);
    var g := GroupByDate(u);
    assert g[j].date == u[i].date && u[i].contact in g[j].contacts;
  }

  /** The records of every group, concatenated in group order. */
  function AllContacts(g: seq<Group>): seq<Record> {
    if g == [] then [] else g[0].contacts + AllContacts(g[1..])
  }

  function ContactsOf(u: seq<Upcoming>): (cs: seq<Record>)
    ensures |cs| == |u| && forall i :: 0 <= i < |u| ==> cs[i] == u[i].contact
  {
    seq(|u|, i requires 0 <= i < |u| => u[i].contact)
  }

  lemma {:induction false} AllContactsNone(keys: seq<Date>)
    ensures AllContacts(GroupsFor([], keys)) == []
  {
    if keys != [] {
      assert GroupsFor([], keys)[1..] == GroupsFor([], keys[1..]);
      AllContactsNone(keys[1..]);
    }
  }

  lemma {:induction false} AllContactsCons(u: seq<Upcoming>, keys: seq<Date>)
    requires keys != []
    ensures AllContacts(GroupsFor(u, keys)) == RecordsOn(u, keys[0]) + AllContacts(GroupsFor(u, keys[1..]))
  {
    assert GroupsFor(u, keys)[1..] == GroupsFor(u, keys[1..]);
  }

  lemma RecordsOnSnoc(u: seq<Upcoming>, x: Upcoming, d: Date)
    ensures RecordsOn(u + [x], d) == RecordsOn(u, d) + (if x.date == d then [x.contact] else [])
  {
    assert (u + [x])[..|u|] == u;
  }

  /** The record `c` once when `present`, and nothing otherwise. */
  function Once(c: Record, present: bool): multiset<Record> {
    if present then multiset{c} else multiset{}
  }

  /** One more yielded pair adds its record once to the list of its own date. */
  lemma RecordsOnStep(u: seq<Upcoming>, x: Upcoming, d: Date)
    ensures multiset(RecordsOn(u + [x], d)) == multiset(RecordsOn(u, d)) + Once(x.contact, x.date == d)
  {
    RecordsOnSnoc(u, x, d);
  }

  /** A date is in a list of distinct keys either as its first key or among the others,
      never both. */
  lemma OnceSplit(c: Record, d: Date, keys: seq<Date>)
    requires Distinct(keys) && keys != []
    ensures Once(c, d in keys) == Once(c, d == keys[0]) + Once(c, d in keys[1..])
  {
    assert forall t :: 0 <= t < |keys| - 1 ==> keys[1..][t] == keys[t + 1] != keys[0];
    assert d in keys <==> d == keys[0] || d in keys[1..];
  }

  /** Yielding one more pair adds its record once, to the group of its date. */
  lemma {:induction false} AllContactsStep(u: seq<Upcoming>, x: Upcoming, keys: seq<Date>)
    requires Distinct(keys)
    ensures multiset(AllContacts(GroupsFor(u + [x], keys)))
         == multiset(AllContacts(GroupsFor(u, keys))) + Once(x.contact, x.date in keys)
  {
    if keys != [] {
      var v := u + [x];
      var k, rest := keys[0], keys[1..];
      AllContactsCons(v, keys);
      AllContactsCons(u, keys);
      RecordsOnStep(u, x, k);
      DistinctTail(keys);
      AllContactsStep(u, x, rest);
      OnceSplit(x.contact, x.date, keys);
      var a, b := multiset(RecordsOn(u, k)), multiset(AllContacts(GroupsFor(u, rest)));
      var o1, o2 := Once(x.contact, x.date == k), Once(x.contact, x.date in rest);
      calc {
        multiset(AllContacts(GroupsFor(v, keys)));
        multiset(RecordsOn(v, k)) + multiset(AllContacts(GroupsFor(v, rest)));
        (a + o1) + (b + o2);
        (a + b) + (o1 + o2);
        multiset(AllContacts(GroupsFor(u, keys))) + Once(x.contact, x.date in keys);
      }
    }
  }

  lemma ContactsOfSnoc(u: seq<Upcoming>, x: Upcoming)
    ensures ContactsOf(u + [x]) == ContactsOf(u) + [x.contact]
  {
    var v := u + [x];
    assert ContactsOf(v)[..|u|] == ContactsOf(u) by {
      assert forall i :: 0 <= i < |u| ==> v[i] == u[i];
    }
  }

  lemma {:induction false} AllContactsGathers(u: seq<Upcoming>, keys: seq<Date>)
    requires Distinct(keys)
    requires forall i :: 0 <= i < |u| ==> u[i].date in keys
    ensures multiset(AllContacts(GroupsFor(u, keys))) == multiset(ContactsOf(u))
  {
    if u == [] {
      AllContactsNone(keys);
    } else {
      var init := u[..|u| - 1];
      var x := u[|u| - 1];
      assert forall i :: 0 <= i < |init| ==> init[i] == u[i];
      AllContactsGathers(init, keys);
      assert u == init + [x];
      AllContactsStep(init, x, keys);
      assert x.date in keys;
      ContactsOfSnoc(init, x);
    }
  }

  /** Grouping loses and duplicates nothing: the grouped records are, as a multiset, the
      yielded records, so their total number is the number of pairs yielded. */
  lemma GroupByDateKeepsAll(u: seq<Upcoming>)
    ensures multiset(AllContacts(GroupByDate(u))) == multiset(ContactsOf(u))
    ensures |AllContacts(GroupByDate(u))| == |u|
  {
    var keys := SortDates(DatesOf(u));
    assert Distinct(keys);
    forall i | 0 <= i < |u| ensures u[i].date in keys {
      assert u[i].date in DatesOf(u);
    }
    AllContactsGathers(u, keys);
    assert |multiset(AllContacts(GroupByDate(u)))| == |AllContacts(GroupByDate(u))|;
  }

  /** The `defaultdict(list)` loop of `upcoming_birthdays_by_days`: a bucket per date
      yielded, in first-seen order, holding that date's records in yield order. */
  method Bucket(upcoming: seq<Upcoming>) returns (buckets: map<Date, seq<Record>>, order: seq<Date>)
    ensures order == DatesOf(upcoming)
    ensures forall d :: d in buckets <==> d in order
    ensures forall d :: d in buckets ==> buckets[d] == RecordsOn(upcoming, d)
  {
    buckets, order := map[], [];
    for i := 0 to |upcoming|
      invariant order == DatesOf(upcoming[..i])
      invariant forall d :: d in buckets <==> d in order
      invariant forall d :: d in buckets ==> buckets[d] == RecordsOn(upcoming[..i], d)
    {
      var item := upcoming[i];
      assert upcoming[..i + 1] == upcoming[..i] + [item];
      forall d ensures RecordsOn(upcoming[..i + 1], d) == RecordsOn(upcoming[..i], d) + (if item.date == d then [item.contact] else []) {
        RecordsOnSnoc(upcoming[..i], item, d);
      }
      if item.date in buckets {
        buckets := buckets[item.date := buckets[item.date] + [item.contact]];
      } else {
        RecordsOnUnseen(upcoming[..i], item.date);
        buckets := buckets[item.date := [item.contact]];
        order := order + [item.date];
      }
    }
    assert upcoming[..|upcoming|] == upcoming;
  }

  /** `dict(sorted(buckets.items()))`: one group per key, in the order of `keys`. */
  method GroupBuckets(upcoming: seq<Upcoming>, buckets: map<Date, seq<Record>>, keys: seq<Date>)
    returns (groups: seq<Group>)
    requires forall d :: d in keys ==> d in buckets && buckets[d] == RecordsOn(upcoming, d)
    ensures groups == GroupsFor(upcoming, keys)
  {
    groups := [];
    for j := 0 to |keys|
      invariant |groups| == j
      invariant forall t :: 0 <= t < j ==> groups[t] == Group(keys[t], RecordsOn(upcoming, keys[t]))
    {
      assert keys[j] in keys;
      groups := groups + [Group(keys[j], buckets[keys[j]])];
    }
  }

  class AddressBook {
    var names: seq<string>
    var data: map<string, Record>
    var window: int
    var datafile: Option<string>

    function State(): BookState
      reads this
    {
      BookState(names, data, window, datafile)
    }

    predicate Valid()
      reads this
    {
      State().Valid()
    }

    function Values(): seq<Record>
      reads this
      requires Valid()
    {
      State().Values()
    }

    /** `AddressBook(*contacts, congratulation_range_days=rangeDays, datafile=datafile)`. */
    constructor (contacts: seq<Record>, rangeDays: int, datafile: Option<string>)
      ensures Valid()
      ensures window == (if rangeDays == 0 then DefaultWindow else rangeDays)
      ensures this.datafile == datafile
      ensures State() == Seeded(contacts, window, datafile)
    {
      names := [];
      data := map[];
      window := if rangeDays == 0 then DefaultWindow else rangeDays;
      this.datafile := datafile;
      new;
      for i := 0 to |contacts|
        invariant Valid()
        invariant window == (if rangeDays == 0 then DefaultWindow else rangeDays)
        invariant this.datafile == datafile
        invariant State() == Seeded(contacts[..i], window, datafile)
      {
        assert contacts[..i + 1][..i] == contacts[..i];
        var contact := contacts[i];
        if contact.name !in data {
          var added := AddRecord(contact);
        }
      }
      assert contacts[..|contacts|] == contacts;
    }

    /** `find(name)`: the stored record, or ContactNotFound. */
    function Find(name: string): (r: Result<Record>)
      reads this
      ensures r.Success? <==> name in data
      ensures r.Success? ==> r.value == data[name]
      ensures r.Failure? ==> r.error == ContactNotFound
    {
      if name !in data then Failure(ContactNotFound) else Success(data[name])
    }

    /** `add_record(contact)`: ContactAlreadyExist and no change when the name is a key;
        otherwise the record is added last under its name and nothing else changes. */
    method AddRecord(contact: Record) returns (r: Result<()>)
      requires Valid()
      modifies this
      ensures Valid()
      ensures contact.name in old(data) ==> r == Failure(ContactAlreadyExist) && State() == old(State())
      ensures contact.name !in old(data) ==> r == Success(()) && State() == old(State()).Inserted(contact)
    {
      if contact.name in data {
        return Failure(ContactAlreadyExist);
      }
      names := names + [contact.name];
      data := data[contact.name := contact];
      r := Success(());
    }

    /** `delete_record(name)`: ContactNotFound and no change for an absent name; otherwise
        exactly that key is removed, the others keep their order, and a later `find` of
        the name fails. */
    method DeleteRecord(name: string) returns (r: Result<()>)
      requires Valid()
      modifies this
      ensures Valid()
      ensures name !in old(data) ==> r == Failure(ContactNotFound) && State() == old(State())
      ensures name in old(data) ==> r == Success(()) && State() == old(State()).Removed(name)
      ensures Find(name) == Failure(ContactNotFound)
    {
      if name !in data {
        return Failure(ContactNotFound);
      }
      var s := State().Removed(name);
      names := s.names;
      data := s.data;
      r := Success(());
    }

    /** Stores `r` under the existing key `name`: the effect on the book of a record
        mutator (`add_phone`, `edit_phone`, the birthday setters) applied to the record
        object the book holds. */
    method Replace(name: string, r: Record)
      requires Valid() && name in data && r.name == name
      modifies this
      ensures Valid()
      ensures names == old(names) && data == old(data)[name := r]
      ensures window == old(window) && datafile == old(datafile)
    {
      data := data[name := r];
    }

    /** `upcoming_birthdays()`, with the current date passed in as `today` and
        `next_birthday` of each record as `nextBirthday`. */
    method UpcomingBirthdays(today: Date, nextBirthday: (Record, Date) -> Option<Date>) returns (u: seq<Upcoming>)
      requires Valid()
      ensures u == UpcomingOf(Values(), today, window, nextBirthday)
    {
      ghost var contacts := Values();
      u := [];
      for i := 0 to |names|
        invariant u == UpcomingOf(contacts[..i], today, window, nextBirthday)
      {
        assert contacts[..i + 1][..i] == contacts[..i];
        var contact := data[names[i]];
        var date := CongratulationDate(nextBirthday(contact, today), today, window);
        if date.Some? {
          u := u + [Upcoming(contact, date.value)];
        }
      }
      assert contacts[..|names|] == contacts;
    }

    /** `upcoming_birthdays_by_days()`: the yielded records grouped by congratulation
        date, in ascending date order. */
    method UpcomingBirthdaysByDays(today: Date, nextBirthday: (Record, Date) -> Option<Date>) returns (groups: seq<Group>)
      requires Valid()
      ensures groups == GroupByDate(UpcomingOf(Values(), today, window, nextBirthday))
    {
      var upcoming := UpcomingBirthdays(today, nextBirthday);
      var buckets, order := Bucket(upcoming);
      var keys := SortDates(order);
      groups := GroupBuckets(upcoming, buckets, keys);
    }
  }
}
