/**
 * The address book: records keyed by name (a Python dict, so keys keep their insertion order),
 * and the upcoming-birthdays query with its weekend shift and its sort by congratulation date.
 */
module Book {
  import opened Base
  import opened Seqs
  import opened Calendar
  import opened Fields
  import opened Records

  /** What the query reads from one record: its name and its birthday. */
  datatype Contact = Contact(name: string, birthday: Option<Date>)

  /** One entry of the query's result: `{"name": ..., "congratulation_date": DateText(date)}`. */
  datatype Congratulation = Congratulation(name: string, date: Date)

  predicate ContactsValid(cs: seq<Contact>)
  {
    forall i :: 0 <= i < |cs| ==> cs[i].birthday.Some? ==> Valid(cs[i].birthday.value)
  }

  predicate DatesValid(gs: seq<Congratulation>)
  {
    forall i :: 0 <= i < |gs| ==> Valid(gs[i].date)
  }

  /** The day greeted for a birthday falling on `b`: `b` itself on Monday to Friday, else `monday`. */
  function GreetingDay(b: Date, monday: Date): (g: Date)
    requires Valid(b)
    ensures g == b || g == monday
    ensures g == b <==> Weekday(b) <= 4 || b == monday
    ensures Valid(monday) && Weekday(monday) == 0 ==> Valid(g) && Weekday(g) <= 4
  {
    if Weekday(b) <= 4 then b else monday
  }

  /** A contact whose next birthday lies in [today, nextWeek] contributes `g` (main.py:112-139). */
  predicate Yields(c: Contact, g: Congratulation, today: Date, nextWeek: Date, monday: Date)
    requires c.birthday.Some? ==> Valid(c.birthday.value)
    requires Valid(today)
  {
    && c.birthday.Some?
    && var b := NextOccurrence(c.birthday.value, today);
    && b.Ok?
    && !Before(b.value, today) && !Before(nextWeek, b.value)
    && g == Congratulation(c.name, GreetingDay(b.value, monday))
  }

  /** One pass of the loop's body: `c`'s entry, if any, appended to `found`, or the ValueError of `replace`. */
  function Extend(found: seq<Congratulation>, c: Contact, today: Date, nextWeek: Date, monday: Date)
    : (r: Result<seq<Congratulation>>)
    requires c.birthday.Some? ==> Valid(c.birthday.value)
    requires Valid(today)
    ensures r.Err? <==> c.birthday.Some? && NextOccurrence(c.birthday.value, today).Err?
    ensures r.Err? ==> r.error == BadReplace
    ensures r.Ok? ==> || r.value == found
                      || (&& |r.value| == |found| + 1 && r.value[..|found|] == found
                          && Yields(c, r.value[|found|], today, nextWeek, monday))
    ensures r.Ok? && r.value == found ==> forall g :: !Yields(c, g, today, nextWeek, monday)
  {
    match c.birthday
    case None => Ok(found)
    case Some(bd) =>
      match NextOccurrence(bd, today)
      case Err(e) => Err(e)
      case Ok(b) =>
        if !Before(b, today) && !Before(nextWeek, b) then Ok(found + [Congratulation(c.name, GreetingDay(b, monday))])
        else Ok(found)
  }

  /** The loop over the records, up to its end or to the first `replace` that raises. */
  function Collect(cs: seq<Contact>, today: Date, nextWeek: Date, monday: Date): (r: Result<seq<Congratulation>>)
    requires ContactsValid(cs) && Valid(today) && Valid(monday)
    ensures r.Ok? ==> DatesValid(r.value) && |r.value| <= |cs|
    ensures r.Err? ==> r.error == BadReplace
  {
    if |cs| == 0 then Ok([])
    else
      match Collect(cs[..|cs| - 1], today, nextWeek, monday)
      case Err(e) => Err(e)
      case Ok(found) => Extend(found, cs[|cs| - 1], today, nextWeek, monday)
  }

  /** The loop after `i + 1` records is the loop after `i` records followed by one pass of its body. */
  lemma CollectPrefix(cs: seq<Contact>, i: nat, today: Date, nextWeek: Date, monday: Date)
    requires ContactsValid(cs) && Valid(today) && Valid(monday) && i < |cs|
    ensures var prev := Collect(cs[..i], today, nextWeek, monday);
            Collect(cs[..i + 1], today, nextWeek, monday) ==
              if prev.Err? then prev else Extend(prev.value, cs[i], today, nextWeek, monday)
  {
    assert cs[..i + 1][..i] == cs[..i];
  }

  /** One more pass of the loop: it either extends what was found or ends the whole loop with its error. */
  lemma CollectStep(cs: seq<Contact>, i: nat, found: seq<Congratulation>, today: Date, nextWeek: Date, monday: Date)
    requires ContactsValid(cs) && Valid(today) && Valid(monday) && i < |cs|
    requires Collect(cs[..i], today, nextWeek, monday) == Ok(found)
    ensures var step := Extend(found, cs[i], today, nextWeek, monday);
            && (step.Ok? ==> Collect(cs[..i + 1], today, nextWeek, monday) == step)
            && (step.Err? ==> Collect(cs, today, nextWeek, monday) == step)
  {
    CollectPrefix(cs, i, today, nextWeek, monday);
    if Extend(found, cs[i], today, nextWeek, monday).Err? {
      CollectErrStays(cs, i + 1, today, nextWeek, monday);
    }
  }

  /** Once one record has raised, the rest of the loop never runs. */
  lemma {:induction false} CollectErrStays(cs: seq<Contact>, k: nat, today: Date, nextWeek: Date, monday: Date)
    requires ContactsValid(cs) && Valid(today) && Valid(monday)
    requires k <= |cs| && Collect(cs[..k], today, nextWeek, monday).Err?
    ensures Collect(cs, today, nextWeek, monday) == Collect(cs[..k], today, nextWeek, monday)
  {
    if k < |cs| {
      var pre := cs[..|cs| - 1];
      assert pre[..k] == cs[..k];
      CollectErrStays(pre, k, today, nextWeek, monday);
    } else {
      assert cs[..k] == cs;
    }
  }

  /** The loop raises exactly when some record's birthday cannot be moved into the needed year. */
  lemma {:induction false} CollectFails(cs: seq<Contact>, today: Date, nextWeek: Date, monday: Date)
    requires ContactsValid(cs) && Valid(today) && Valid(monday)
    ensures Collect(cs, today, nextWeek, monday).Err? <==>
            exists i :: 0 <= i < |cs| && cs[i].birthday.Some? && NextOccurrence(cs[i].birthday.value, today).Err?
  {
    if |cs| > 0 {
      var pre := cs[..|cs| - 1];
      CollectFails(pre, today, nextWeek, monday);
      if exists i :: 0 <= i < |pre| && pre[i].birthday.Some? && NextOccurrence(pre[i].birthday.value, today).Err? {
        var i :| 0 <= i < |pre| && pre[i].birthday.Some? && NextOccurrence(pre[i].birthday.value, today).Err?;
        assert cs[i] == pre[i];
      }
      if exists i :: 0 <= i < |cs| && cs[i].birthday.Some? && NextOccurrence(cs[i].birthday.value, today).Err? {
        var i :| 0 <= i < |cs| && cs[i].birthday.Some? && NextOccurrence(cs[i].birthday.value, today).Err?;
        if i < |pre| {
          assert pre[i] == cs[i];
        }
      }
    }
  }

  /** Every contact whose next birthday falls in the window has its entry among the found ones. */
  lemma {:induction false} CollectIncludes(cs: seq<Contact>, i: nat, g: Congratulation, today: Date, nextWeek: Date, monday: Date)
    requires ContactsValid(cs) && Valid(today) && Valid(monday)
    requires i < |cs| && Yields(cs[i], g, today, nextWeek, monday)
    requires Collect(cs, today, nextWeek, monday).Ok?
    ensures g in Collect(cs, today, nextWeek, monday).value
  {
    var pre := cs[..|cs| - 1];
    if i < |pre| {
      assert pre[i] == cs[i];
      CollectIncludes(pre, i, g, today, nextWeek, monday);
    }
  }

  /** Every found entry comes from a contact whose next birthday falls in the window. */
  lemma {:induction false} CollectOnlyFrom(cs: seq<Contact>, g: Congratulation, today: Date, nextWeek: Date, monday: Date)
    requires ContactsValid(cs) && Valid(today) && Valid(monday)
    requires Collect(cs, today, nextWeek, monday).Ok? && g in Collect(cs, today, nextWeek, monday).value
    ensures exists i :: 0 <= i < |cs| && Yields(cs[i], g, today, nextWeek, monday)
  {
    var pre := cs[..|cs| - 1];
    var found := Collect(pre, today, nextWeek, monday).value;
    if g in found {
      CollectOnlyFrom(pre, g, today, nextWeek, monday);
      var i :| 0 <= i < |pre| && Yields(pre[i], g, today, nextWeek, monday);
      assert cs[i] == pre[i];
    } else {
      assert Yields(cs[|cs| - 1], g, today, nextWeek, monday);
    }
  }

  /** Dates in time order, as the query's result is meant to be. */
  predicate Chronological(gs: seq<Congratulation>)
  {
    forall i, j :: 0 <= i < j < |gs| ==> !Before(gs[j].date, gs[i].date)
  }

  /**
   * One step of `sorted(..., key=lambda x: x["congratulation_date"])`: `x` goes in front of the
   * first entry whose text is not smaller than its own, so equal keys keep their order.
   */
  function Insert(x: Congratulation, s: seq<Congratulation>): (r: seq<Congratulation>)
    requires Valid(x.date) && DatesValid(s)
    ensures multiset(r) == multiset(s) + multiset{x} && |r| == |s| + 1
    ensures DatesValid(r)
  {
    if |s| == 0 then [x]
    else if !TextLess(DateText(s[0].date), DateText(x.date)) then [x] + s
    else
      assert s == [s[0]] + s[1..];
      [s[0]] + Insert(x, s[1..])
  }

  /** Each entry after an insertion is the inserted one or an entry of the old sequence. */
  lemma InsertFrom(x: Congratulation, s: seq<Congratulation>, j: nat)
    requires Valid(x.date) && DatesValid(s) && j < |Insert(x, s)|
    ensures Insert(x, s)[j] == x || exists k :: 0 <= k < |s| && s[k] == Insert(x, s)[j]
  {
    var t := Insert(x, s);
    assert t[j] in multiset(t);
    if t[j] != x {
      assert t[j] in multiset(s);
    }
  }

  /** Python's stable `sorted` keyed on the `%Y.%m.%d` text, as an insertion sort. */
  function SortByDate(s: seq<Congratulation>): (r: seq<Congratulation>)
    requires DatesValid(s)
    ensures multiset(r) == multiset(s) && |r| == |s|
    ensures DatesValid(r)
  {
    if |s| == 0 then []
    else
      assert s == [s[0]] + s[1..];
      Insert(s[0], SortByDate(s[1..]))
  }

  lemma {:induction false} InsertChronological(x: Congratulation, s: seq<Congratulation>)
    requires Valid(x.date) && DatesValid(s) && Chronological(s)
    ensures Chronological(Insert(x, s))
  {
    if |s| > 0 {
      DateTextOrder(s[0].date, x.date);
      if TextLess(DateText(s[0].date), DateText(x.date)) {
        var t := Insert(x, s[1..]);
        InsertChronological(x, s[1..]);
        forall j | 0 <= j < |t|
          ensures !Before(t[j].date, s[0].date)
        {
          InsertFrom(x, s[1..], j);
        }
      }
    }
  }

  /** The result of the sort is in time order. */
  lemma {:induction false} SortChronological(s: seq<Congratulation>)
    requires DatesValid(s)
    ensures Chronological(SortByDate(s))
  {
    if |s| > 0 {
      SortChronological(s[1..]);
      InsertChronological(s[0], SortByDate(s[1..]));
    }
  }

  /** The entries greeted on day `d`, in their order. */
  function OnDate(s: seq<Congratulation>, d: Date): seq<Congratulation>
  {
    if |s| == 0 then [] else (if s[0].date == d then [s[0]] else []) + OnDate(s[1..], d)
  }

  lemma {:induction false} InsertOnDate(x: Congratulation, s: seq<Congratulation>, d: Date)
    requires Valid(x.date) && DatesValid(s)
    ensures OnDate(Insert(x, s), d) == (if x.date == d then [x] else []) + OnDate(s, d)
  {
    if |s| > 0 {
      assert s == [s[0]] + s[1..];
      OnDateCons(s[0], s[1..], d);
      if !TextLess(DateText(s[0].date), DateText(x.date)) {
        OnDateCons(x, s, d);
      } else {
        DateTextOrder(s[0].date, x.date);
        InsertOnDate(x, s[1..], d);
        OnDateCons(s[0], Insert(x, s[1..]), d);
        SwapSingles(if s[0].date == d then [s[0]] else [], if x.date == d then [x] else [], OnDate(s[1..], d));
      }
    } else {
      OnDateCons(x, [], d);
    }
  }

  /** The entries of one day in a sequence that starts with `y`. */
  lemma OnDateCons(y: Congratulation, t: seq<Congratulation>, d: Date)
    ensures OnDate([y] + t, d) == (if y.date == d then [y] else []) + OnDate(t, d)
  {
    assert ([y] + t)[1..] == t;
  }

  /** Two pieces of which one is empty can be swapped in front of a common rest. */
  lemma SwapSingles<T>(a: seq<T>, b: seq<T>, t: seq<T>)
    requires a == [] || b == []
    ensures a + (b + t) == b + (a + t)
  {
    if a == [] {
      assert a + (b + t) == b + t == b + (a + t);
    } else {
      assert b + (a + t) == a + t == a + (b + t);
    }
  }

  /** The sort is stable: entries for the same day keep the order in which the loop found them. */
  lemma {:induction false} SortStable(s: seq<Congratulation>, d: Date)
    requires DatesValid(s)
    ensures OnDate(SortByDate(s), d) == OnDate(s, d)
  {
    if |s| > 0 {
      SortStable(s[1..], d);
      InsertOnDate(s[0], SortByDate(s[1..]), d);
    }
  }

  /**
   * The query's window: `next_week` is today + 7 days and `monday` the Monday of its week,
   * which is the day a weekend birthday is greeted on; both additions may overflow.
   */
  function Window(today: Date): (r: Result<(Date, Date)>)
    requires Valid(today)
    ensures r.Ok? <==> Ordinal(today) + 7 <= MAX_ORDINAL
    ensures r.Ok? ==> Valid(r.value.0) && Ordinal(r.value.0) == Ordinal(today) + 7
    ensures r.Ok? ==> Valid(r.value.1) && Weekday(r.value.1) == 0
                      && Ordinal(today) + 1 <= Ordinal(r.value.1) <= Ordinal(today) + 7
    ensures r.Err? ==> r.error == Overflow
  {
    OrdinalRange(today);
    match AddDays(today, 7)
    case Err(e) => Err(e)
    case Ok(nextWeek) =>
      match AddDays(nextWeek, -Weekday(nextWeek))
      case Err(e) => Err(e)
      case Ok(monday) =>
        WeekdayShift(nextWeek, monday, -Weekday(nextWeek));
        Ok((nextWeek, monday))
  }

  /** get_upcoming_birthdays over the contacts in the book's key order, sorted by congratulation date. */
  function Upcoming(cs: seq<Contact>, today: Date): (r: Result<seq<Congratulation>>)
    requires ContactsValid(cs) && Valid(today)
    ensures r.Ok? ==> DatesValid(r.value) && |r.value| <= |cs|
    ensures r.Err? ==> r.error == Overflow || r.error == BadReplace
  {
    match Window(today)
    case Err(e) => Err(e)
    case Ok((nextWeek, monday)) =>
      match Collect(cs, today, nextWeek, monday)
      case Err(e) => Err(e)
      case Ok(found) => Ok(SortByDate(found))
  }

  /** The query raises only for a date past 9999-12-24 or for a birthday `replace` cannot move. */
  lemma UpcomingFails(cs: seq<Contact>, today: Date)
    requires ContactsValid(cs) && Valid(today)
    ensures Upcoming(cs, today).Err? <==>
            || Ordinal(today) + 7 > MAX_ORDINAL
            || exists i :: 0 <= i < |cs| && cs[i].birthday.Some? && NextOccurrence(cs[i].birthday.value, today).Err?
  {
    if Window(today).Ok? {
      var (nextWeek, monday) := Window(today).value;
      CollectFails(cs, today, nextWeek, monday);
    }
  }

  /** A birthday in the window is greeted on a weekday in [today, today + 7]. */
  lemma GreetingInWindow(b: Date, today: Date)
    requires Valid(b) && Valid(today) && Window(today).Ok?
    requires !Before(b, today) && !Before(Window(today).value.0, b)
    ensures var g := GreetingDay(b, Window(today).value.1);
            Valid(g) && Weekday(g) <= 4 && Ordinal(today) <= Ordinal(g) <= Ordinal(today) + 7
  {
    var (nextWeek, monday) := Window(today).value;
    OrdinalOrder(b, today);
    OrdinalOrder(nextWeek, b);
  }

  /** Every entry the loop finds is greeted on a weekday in [today, today + 7]. */
  lemma FoundInWindow(cs: seq<Contact>, today: Date, g: Congratulation)
    requires ContactsValid(cs) && Valid(today) && Window(today).Ok?
    requires var (nextWeek, monday) := Window(today).value;
             Collect(cs, today, nextWeek, monday).Ok? && g in Collect(cs, today, nextWeek, monday).value
    ensures Valid(g.date) && Weekday(g.date) <= 4 && Ordinal(today) <= Ordinal(g.date) <= Ordinal(today) + 7
  {
    var (nextWeek, monday) := Window(today).value;
    CollectOnlyFrom(cs, g, today, nextWeek, monday);
    var k :| 0 <= k < |cs| && Yields(cs[k], g, today, nextWeek, monday);
    GreetingInWindow(NextOccurrence(cs[k].birthday.value, today).value, today);
  }

  /** Every congratulation date is a weekday within [today, today + 7]. */
  lemma UpcomingWindow(cs: seq<Contact>, today: Date)
    requires ContactsValid(cs) && Valid(today) && Upcoming(cs, today).Ok?
    ensures var r := Upcoming(cs, today).value;
            forall i :: 0 <= i < |r| ==>
              && Valid(r[i].date) && Weekday(r[i].date) <= 4
              && Ordinal(today) <= Ordinal(r[i].date) <= Ordinal(today) + 7
  {
    var (nextWeek, monday) := Window(today).value;
    var found := Collect(cs, today, nextWeek, monday).value;
    var r := Upcoming(cs, today).value;
    assert multiset(r) == multiset(found);
    forall i | 0 <= i < |r|
      ensures Valid(r[i].date) && Weekday(r[i].date) <= 4
      ensures Ordinal(today) <= Ordinal(r[i].date) <= Ordinal(today) + 7
    {
      assert r[i] in multiset(found);
      FoundInWindow(cs, today, r[i]);
    }
  }

  /** The result is sorted by its `%Y.%m.%d` texts, which is time order. */
  lemma UpcomingSorted(cs: seq<Contact>, today: Date)
    requires ContactsValid(cs) && Valid(today) && Upcoming(cs, today).Ok?
    ensures var r := Upcoming(cs, today).value;
            && DatesValid(r)
            && (forall i, j :: 0 <= i < j < |r| ==> !TextLess(DateText(r[j].date), DateText(r[i].date)))
            && (forall i, j :: 0 <= i < j < |r| ==> Ordinal(r[i].date) <= Ordinal(r[j].date))
  {
    var (nextWeek, monday) := Window(today).value;
    var found := Collect(cs, today, nextWeek, monday).value;
    SortChronological(found);
    var r := Upcoming(cs, today).value;
    forall i, j | 0 <= i < j < |r|
      ensures !TextLess(DateText(r[j].date), DateText(r[i].date))
      ensures Ordinal(r[i].date) <= Ordinal(r[j].date)
    {
      DateTextOrder(r[j].date, r[i].date);
      OrdinalOrder(r[j].date, r[i].date);
    }
  }

  /**
   * The result holds exactly the entries of the contacts whose next birthday falls in
   * [today, today + 7], each greeted on its birthday or, at a weekend, on the Monday.
   */
  lemma UpcomingMembers(cs: seq<Contact>, today: Date, g: Congratulation)
    requires ContactsValid(cs) && Valid(today) && Upcoming(cs, today).Ok?
    ensures var (nextWeek, monday) := Window(today).value;
            g in Upcoming(cs, today).value <==> exists i :: 0 <= i < |cs| && Yields(cs[i], g, today, nextWeek, monday)
  {
    var (nextWeek, monday) := Window(today).value;
    var found := Collect(cs, today, nextWeek, monday).value;
    assert g in Upcoming(cs, today).value <==> g in multiset(found);
    if g in found {
      CollectOnlyFrom(cs, g, today, nextWeek, monday);
    }
    if exists i :: 0 <= i < |cs| && Yields(cs[i], g, today, nextWeek, monday) {
      var i :| 0 <= i < |cs| && Yields(cs[i], g, today, nextWeek, monday);
      CollectIncludes(cs, i, g, today, nextWeek, monday);
    }
  }

  /** Every name in the key order has a record. */
  predicate Listed(data: map<string, Record>, order: seq<string>)
  {
    forall i :: 0 <= i < |order| ==> order[i] in data
  }

  /**
   * The book's invariant on its dict and key order: the order lists every key once and nothing
   * else, and each record is stored under its own name.
   */
  ghost predicate Indexed(data: map<string, Record>, order: seq<string>)
  {
    && Distinct(order)
    && Listed(data, order)
    && (forall k :: k in data ==> k in order)
    && (forall k :: k in data ==> data[k].name == k)
  }

  /** Deleting a key from the dict and from the key order keeps the invariant. */
  lemma DeleteIndexed(data: map<string, Record>, order: seq<string>, name: string)
    requires Indexed(data, order)
    ensures Indexed(data - {name}, Without(order, name))
  {
    var kept, rest := Without(order, name), data - {name};
    WithoutDistinct(order, name);
    WithoutMembers(order, name);
    forall i | 0 <= i < |kept|
      ensures kept[i] in rest
    {
      var j :| 0 <= j < |order| && order[j] == kept[i];
    }
    forall k | k in rest
      ensures k in kept
    {
      var j :| 0 <= j < |order| && order[j] == k;
    }
  }

  class AddressBook {
    var data: map<string, Record>
    /** The dict's key order: insertion order, kept on overwrite, lost on delete. */
    var order: seq<string>

    ghost predicate Valid()
      reads this
    {
      Indexed(data, order)
    }

    /** Every stored record holds only validated phones and real dates. */
    ghost predicate RecordsValid()
      reads this, data.Values
    {
      forall k :: k in data ==> data[k].Valid()
    }

    /** `AddressBook()`: an empty dict. */
    constructor ()
      ensures Valid() && RecordsValid() && data == map[] && order == []
    {
      data := map[];
      order := [];
    }

    /** find: the record stored under `name`, or None; nothing is inserted (main.py:98-99). */
    function Find(name: string): (r: Option<Record>)
      reads this
      requires Valid()
      ensures r.Some? <==> name in order
      ensures r.Some? ==> r.value.name == name && r.value in data.Values
    {
      if name in data then Some(data[name]) else None
    }

    /** add_record: store `record` under its name, replacing any record stored there. */
    method AddRecord(record: Record)
      requires Valid()
      modifies this
      ensures Valid()
      ensures data == old(data)[record.name := record]
      ensures order == if record.name in old(data) then old(order) else old(order) + [record.name]
      ensures Find(record.name) == Some(record)
      ensures forall n :: n != record.name ==> Find(n) == old(Find(n))
      ensures old(RecordsValid()) && record.Valid() ==> RecordsValid()
    {
      if record.name !in data {
        order := order + [record.name];
      }
      data := data[record.name := record];
    }

    /** delete: remove `name` if present; every other entry stays as it was. */
    method Delete(name: string)
      requires Valid()
      modifies this
      ensures Valid()
      ensures data == old(data) - {name}
      ensures order == Without(old(order), name)
      ensures Find(name) == None
      ensures forall n :: n != name ==> Find(n) == old(Find(n))
      ensures old(RecordsValid()) ==> RecordsValid()
    {
      if name in data {
        DeleteIndexed(data, order, name);
        data := data - {name};
        order := Without(order, name);
      } else {
        assert name !in order;
      }
    }

    /** The names and birthdays of the records, in the dict's order. */
    function Contacts(): (cs: seq<Contact>)
      reads this, data.Values
      requires Listed(data, order)
      ensures |cs| == |order|
      ensures forall i :: 0 <= i < |order| ==> cs[i] == Contact(data[order[i]].name, data[order[i]].birthday)
    {
      ContactsOf(order, data)
    }

    /** Records built through `Record`'s methods give the query only real dates. */
    lemma RecordsGiveValidContacts()
      requires Valid() && RecordsValid()
      ensures ContactsValid(Contacts())
    {
      var cs := Contacts();
      forall i | 0 <= i < |cs|
        ensures cs[i].birthday.Some? ==> Calendar.Valid(cs[i].birthday.value)
      {
        assert data[order[i]].Valid();
      }
    }

    /** get_upcoming_birthdays, with `today` passed in instead of read from the clock. */
    method UpcomingBirthdays(today: Date) returns (r: Result<seq<Congratulation>>)
      requires Valid() && ContactsValid(Contacts()) && Calendar.Valid(today)
      ensures r == Upcoming(Contacts(), today)
    {
      var w := Window(today);
      if w.Err? {
        return Err(w.error);
      }
      var (nextWeek, monday) := w.value;
      var found := CollectRecords(today, nextWeek, monday);
      if found.Err? {
        return Err(found.error);
      }
      r := Ok(SortByDate(found.value));
    }

    /** The loop of get_upcoming_birthdays over the records, in key order, up to the first error. */
    method CollectRecords(today: Date, nextWeek: Date, monday: Date) returns (r: Result<seq<Congratulation>>)
      requires Listed(data, order) && ContactsValid(Contacts()) && Calendar.Valid(today) && Calendar.Valid(monday)
      ensures r == Collect(Contacts(), today, nextWeek, monday)
    {
      ghost var cs := Contacts();
      var found := [];
      var i := 0;
      while i < |order|
        invariant 0 <= i <= |order|
        invariant Collect(cs[..i], today, nextWeek, monday) == Ok(found)
      {
        var record := data[order[i]];
        assert cs[i] == Contact(record.name, record.birthday);
        var step := Visit(found, record.name, record.birthday, today, nextWeek, monday);
        CollectStep(cs, i, found, today, nextWeek, monday);
        if step.Err? {
          return step;
        }
        found := step.value;
        i := i + 1;
      }
      assert cs[..i] == cs;
      r := Ok(found);
    }
  }

  /**
   * The body of the loop in get_upcoming_birthdays for one record: its next birthday, if it has
   * one and it falls in [today, nextWeek], is appended, greeted on the day itself from Monday to
   * Friday and on `monday` at a weekend.
   */
  method Visit(found: seq<Congratulation>, name: string, birthday: Option<Date>, today: Date, nextWeek: Date, monday: Date)
    returns (r: Result<seq<Congratulation>>)
    requires birthday.Some? ==> Valid(birthday.value)
    requires Valid(today)
    ensures r == Extend(found, Contact(name, birthday), today, nextWeek, monday)
  {
    r := Ok(found);
    if birthday.Some? {
      var b := NextOccurrence(birthday.value, today);
      if b.Err? {
        return Err(b.error);
      }
      var day := b.value;
      if !Before(day, today) && !Before(nextWeek, day) {
        if Weekday(day) <= 4 {
          r := Ok(found + [Congratulation(name, day)]);
        } else {
          r := Ok(found + [Congratulation(name, monday)]);
        }
      }
    }
  }

  function ContactsOf(ks: seq<string>, m: map<string, Record>): (cs: seq<Contact>)
    reads m.Values
    requires forall i :: 0 <= i < |ks| ==> ks[i] in m
    ensures |cs| == |ks|
    ensures forall i :: 0 <= i < |ks| ==> cs[i] == Contact(m[ks[i]].name, m[ks[i]].birthday)
  {
    if |ks| == 0 then []
    else
      assert forall i :: 0 <= i < |ks[1..]| ==> ks[1..][i] == ks[i + 1];
      [Contact(m[ks[0]].name, m[ks[0]].birthday)] + ContactsOf(ks[1..], m)
  }

  /**
   * With today Monday 2024-06-03, a birthday on 5 June (a Wednesday) is greeted that day and one
   * on 8 June (a Saturday) on Monday 10 June, the Monday of the week holding today + 7.
   */
  lemma ExampleWeek()
    ensures Upcoming([Contact("Anna", Some(Date(1990, 6, 5))), Contact("Bob", Some(Date(1985, 6, 8)))], Date(2024, 6, 3))
            == Ok([Congratulation("Anna", Date(2024, 6, 5)), Congratulation("Bob", Date(2024, 6, 10))])
  {
    ExampleWindow();
    ExampleCollect();
    ExampleSorted();
  }

  /** The loop over Anna and Bob, with the window of Monday 2024-06-03. */
  lemma ExampleCollect()
    ensures Collect([Contact("Anna", Some(Date(1990, 6, 5))), Contact("Bob", Some(Date(1985, 6, 8)))],
                    Date(2024, 6, 3), Date(2024, 6, 10), Date(2024, 6, 10))
            == Ok([Congratulation("Anna", Date(2024, 6, 5)), Congratulation("Bob", Date(2024, 6, 10))])
  {
    var today, monday := Date(2024, 6, 3), Date(2024, 6, 10);
    var anna, bob := Contact("Anna", Some(Date(1990, 6, 5))), Contact("Bob", Some(Date(1985, 6, 8)));
    var cs := [anna, bob];
    assert Valid(Date(1990, 6, 5)) && Valid(Date(1985, 6, 8));
    assert cs[..0] == [] && cs[..1] == [anna] && cs[..2] == cs;
    ExampleAnna();
    ExampleBob();
    CollectPrefix(cs, 0, today, monday, monday);
    CollectPrefix(cs, 1, today, monday, monday);
  }

  lemma ExampleOrdinals()
    ensures Ordinal(Date(2024, 6, 3)) == 739040 && Ordinal(Date(2024, 6, 5)) == 739042
    ensures Ordinal(Date(2024, 6, 8)) == 739045 && Ordinal(Date(2024, 6, 10)) == 739047
  {
    assert DaysBeforeYear(2024) == 738885;
    assert DaysBeforeMonth(2024, 6) == 152;
  }

  lemma ExampleWeekdays()
    ensures Weekday(Date(2024, 6, 3)) == 0 && Weekday(Date(2024, 6, 5)) == 2
    ensures Weekday(Date(2024, 6, 8)) == 5 && Weekday(Date(2024, 6, 10)) == 0
  {
    ExampleOrdinals();
  }

  /** Today + 7 is Monday 2024-06-10, which is therefore also the Monday of its week. */
  lemma ExampleWindow()
    ensures Window(Date(2024, 6, 3)) == Ok((Date(2024, 6, 10), Date(2024, 6, 10)))
  {
    var today, monday := Date(2024, 6, 3), Date(2024, 6, 10);
    ExampleOrdinals();
    var (nw, mo) := Window(today).value;
    ExampleWeekdays();
    OrdinalInjective(nw, monday);
    WeekdayWithinWeek(mo, monday);
  }

  lemma ExampleAnna()
    ensures Extend([], Contact("Anna", Some(Date(1990, 6, 5))), Date(2024, 6, 3), Date(2024, 6, 10), Date(2024, 6, 10))
            == Ok([Congratulation("Anna", Date(2024, 6, 5))])
  {
    var anna := Date(2024, 6, 5);
    assert NextOccurrence(Date(1990, 6, 5), Date(2024, 6, 3)) == Ok(anna);
    ExampleWeekdays();
    assert GreetingDay(anna, Date(2024, 6, 10)) == anna;
    assert !Before(anna, Date(2024, 6, 3)) && !Before(Date(2024, 6, 10), anna);
    assert [] + [Congratulation("Anna", anna)] == [Congratulation("Anna", anna)];
  }

  lemma ExampleBob()
    ensures Extend([Congratulation("Anna", Date(2024, 6, 5))], Contact("Bob", Some(Date(1985, 6, 8))),
                   Date(2024, 6, 3), Date(2024, 6, 10), Date(2024, 6, 10))
            == Ok([Congratulation("Anna", Date(2024, 6, 5)), Congratulation("Bob", Date(2024, 6, 10))])
  {
    var bob := Date(2024, 6, 8);
    assert NextOccurrence(Date(1985, 6, 8), Date(2024, 6, 3)) == Ok(bob);
    ExampleWeekdays();
    assert GreetingDay(bob, Date(2024, 6, 10)) == Date(2024, 6, 10);
    assert !Before(bob, Date(2024, 6, 3)) && !Before(Date(2024, 6, 10), bob);
    assert [Congratulation("Anna", Date(2024, 6, 5))] + [Congratulation("Bob", Date(2024, 6, 10))]
        == [Congratulation("Anna", Date(2024, 6, 5)), Congratulation("Bob", Date(2024, 6, 10))];
  }

  lemma ExampleSorted()
    ensures var s := [Congratulation("Anna", Date(2024, 6, 5)), Congratulation("Bob", Date(2024, 6, 10))];
            SortByDate(s) == s
  {
    var a, b := Congratulation("Anna", Date(2024, 6, 5)), Congratulation("Bob", Date(2024, 6, 10));
    DateTextOrder(b.date, a.date);
    assert [a, b][1..] == [b];
    assert [b][1..] == [];
    assert SortByDate([b]) == [b];
  }
}
