/**
 * One contact: a `Record` holds a fixed name, an ordered list of validated phones and an optional
 * birthday, with the per-contact edits and the days-until-next-birthday calculation.
 */
module Records {
  import opened Base
  import opened Seqs
  import opened Decimal
  import opened Calendar
  import opened Fields

  /**
   * The birthday's month and day in today's year, or in the next year when that date has
   * already passed; either `replace(year=...)` may raise ValueError (main.py:80-82 and 113-119).
   */
  function NextOccurrence(birthday: Date, today: Date): (r: Result<Date>)
    requires Valid(birthday) && Valid(today)
    ensures r.Ok? ==> Valid(r.value) && r.value.month == birthday.month && r.value.day == birthday.day
    ensures r.Ok? ==> !Before(r.value, today)
    ensures r.Ok? ==> r.value.year == today.year
                      || (r.value.year == today.year + 1 && Before(Date(today.year, birthday.month, birthday.day), today))
    ensures r.Err? <==>
      || (birthday.month == 2 && birthday.day == 29 && (!IsLeap(today.year) || today.month > 2))
      || (today.year == MAX_YEAR && Before(Date(today.year, birthday.month, birthday.day), today))
    ensures r.Err? ==> r.error == BadReplace
  {
    match ReplaceYear(birthday, today.year)
    case Err(e) => Err(e)
    case Ok(b) => if Before(b, today) then ReplaceYear(birthday, today.year + 1) else Ok(b)
  }

  /**
   * days_to_birthday with the dates compared as dates, as get_upcoming_birthdays compares them:
   * None without a birthday, otherwise the days from today to the next occurrence.
   */
  function DaysToBirthday(birthday: Option<Date>, today: Date): (r: Result<Option<int>>)
    requires birthday.Some? ==> Valid(birthday.value)
    requires Valid(today)
    ensures r == Ok(None) <==> birthday.None?
    ensures r.Err? <==> birthday.Some? && NextOccurrence(birthday.value, today).Err?
    ensures r.Ok? && r.value.Some? ==> 0 <= r.value.value <= 365
    ensures r.Ok? && r.value.Some? ==>
              (r.value.value == 0 <==> today.month == birthday.value.month && today.day == birthday.value.day)
    ensures r.Ok? && r.value.Some? ==>
              r.value.value == Ordinal(NextOccurrence(birthday.value, today).value) - Ordinal(today)
  {
    match birthday
    case None => Ok(None)
    case Some(bd) =>
      match NextOccurrence(bd, today)
      case Err(e) => Err(e)
      case Ok(b) =>
        OrdinalOrder(b, today);
        NextWithinYear(bd, today);
        if Ordinal(b) == Ordinal(today) then OrdinalInjective(b, today); Ok(Some(0))
        else Ok(Some(Ordinal(b) - Ordinal(today)))
  }

  /** The next occurrence of a birthday is less than a year away. */
  lemma NextWithinYear(birthday: Date, today: Date)
    requires Valid(birthday) && Valid(today) && NextOccurrence(birthday, today).Ok?
    ensures Ordinal(NextOccurrence(birthday, today).value) - Ordinal(today) <= 365
  {
    var b := NextOccurrence(birthday, today).value;
    if b.year == today.year {
      WithinYear(b);
      WithinYear(today);
    } else {
      var b0 := Date(today.year, birthday.month, birthday.day);
      assert Valid(b0);
      OrdinalOrder(b0, today);
      YearStep(today.year);
      assert Ordinal(b) - Ordinal(b0) <= 366;
    }
  }

  /**
   * days_to_birthday as written (main.py:77-84): `self.birthday.value` is the datetime strptime
   * returns and `replace` keeps it a datetime, while `today` is a date, so `next_birthday < today`
   * raises TypeError once `replace` has succeeded.
   */
  function DaysToBirthdayAsWritten(birthday: Option<Date>, today: Date): (r: Result<Option<int>>)
    requires birthday.Some? ==> Valid(birthday.value)
    requires Valid(today)
    ensures r.Ok? ==> r.value.None?
    ensures r.Err? <==> birthday.Some?
  {
    match birthday
    case None => Ok(None)
    case Some(bd) =>
      match ReplaceYear(bd, today.year)
      case Err(e) => Err(e)
      case Ok(_) => Err(Uncomparable)
  }

  /** A birthday two days ahead: the code as written raises, the corrected calculation counts 2. */
  lemma DaysToBirthdayDiscrepancy()
    ensures DaysToBirthdayAsWritten(Some(Date(1990, 6, 5)), Date(2024, 6, 3)) == Err(Uncomparable)
    ensures DaysToBirthday(Some(Date(1990, 6, 5)), Date(2024, 6, 3)) == Ok(Some(2))
  {
    var b := Date(2024, 6, 5);
    assert NextOccurrence(Date(1990, 6, 5), Date(2024, 6, 3)) == Ok(b);
    assert Ordinal(b) == Ordinal(Date(2024, 6, 3)) + 2;
  }

  /** The phones separated by "; ", as `Record.__str__` joins them. */
  function JoinPhones(phones: seq<string>): (r: string)
    ensures |phones| == 0 ==> r == ""
    ensures |phones| > 0 ==> phones[0] <= r
    ensures |phones| > 0 ==> var last := phones[|phones| - 1]; |last| <= |r| && r[|r| - |last|..] == last
  {
    if |phones| == 0 then ""
    else if |phones| == 1 then phones[0]
    else
      var rest := JoinPhones(phones[1..]);
      assert phones[1..][|phones| - 2] == phones[|phones| - 1];
      var r := phones[0] + "; " + rest;
      assert r[|r| - |rest|..] == rest;
      r
  }

  /** Every phone has ten digits, so the k-th one sits at offset 12k of the joined text. */
  lemma {:induction false} JoinPhonesLayout(phones: seq<string>)
    requires forall i :: 0 <= i < |phones| ==> IsPhone(phones[i])
    ensures |JoinPhones(phones)| == if |phones| == 0 then 0 else 12 * |phones| - 2
    ensures forall k :: 0 <= k < |phones| ==> JoinPhones(phones)[12 * k..12 * k + 10] == phones[k]
  {
    if |phones| > 1 {
      var rest := phones[1..];
      JoinPhonesLayout(rest);
      var t := JoinPhones(phones);
      assert t == phones[0] + "; " + JoinPhones(rest);
      forall k | 0 <= k < |phones|
        ensures t[12 * k..12 * k + 10] == phones[k]
      {
        if k > 0 {
          assert t[12 * k..12 * k + 10] == JoinPhones(rest)[12 * (k - 1)..12 * (k - 1) + 10];
        }
      }
    }
  }

  class Record {
    const name: string
    var phones: seq<string>
    var birthday: Option<Date>

    /** Only validated phones and real dates are ever stored. */
    ghost predicate Valid()
      reads this
    {
      && (forall i :: 0 <= i < |phones| ==> IsPhone(phones[i]))
      && (birthday.Some? ==> Calendar.Valid(birthday.value))
    }

    /** `Record(name)`: no phones, no birthday (main.py:57-60). */
    constructor (name: string)
      ensures this.name == name && phones == [] && birthday == None
      ensures Valid()
    {
      this.name := name;
      phones := [];
      birthday := None;
    }

    /** add_phone: a valid number is appended; an invalid one raises before the list is touched. */
    method AddPhone(phone: string) returns (r: Outcome)
      requires Valid()
      modifies this
      ensures Valid() && birthday == old(birthday)
      ensures r == if IsPhone(phone) then Pass else Fail(PhoneFormat)
      ensures phones == if r.Pass? then old(phones) + [phone] else old(phones)
    {
      match NewPhone(phone)
      case Err(e) =>
        r := Fail(e);
      case Ok(p) =>
        phones := phones + [p];
        r := Pass;
    }

    /** remove_phone: every phone equal to `phone` goes, the rest keep their order. */
    method RemovePhone(phone: string)
      requires Valid()
      modifies this
      ensures Valid() && birthday == old(birthday)
      ensures phones == Without(old(phones), phone)
    {
      var kept := [];
      var i := 0;
      while i < |phones|
        invariant 0 <= i <= |phones|
        invariant kept == Without(phones[..i], phone)
      {
        assert phones[..i + 1][..i] == phones[..i];
        if phones[i] != phone {
          kept := kept + [phones[i]];
        }
        i := i + 1;
      }
      assert phones[..i] == phones;
      WithoutMembers(phones, phone);
      phones := kept;
    }

    /**
     * edit_phone: the first phone equal to `oldPhone` becomes `newPhone`, validated first; with
     * no such phone nothing happens and `newPhone` is never checked.
     */
    method EditPhone(oldPhone: string, newPhone: string) returns (r: Outcome)
      requires Valid()
      modifies this
      ensures Valid() && birthday == old(birthday)
      ensures match FirstIndex(old(phones), oldPhone)
        case None => r == Pass && phones == old(phones)
        case Some(k) =>
          if IsPhone(newPhone) then r == Pass && phones == old(phones)[k := newPhone]
          else r == Fail(PhoneFormat) && phones == old(phones)
    {
      var i := 0;
      while i < |phones|
        invariant 0 <= i <= |phones|
        invariant phones == old(phones)
        invariant forall j :: 0 <= j < i ==> phones[j] != oldPhone
      {
        if phones[i] == oldPhone {
          match NewPhone(newPhone)
          case Err(e) =>
            return Fail(e);
          case Ok(p) =>
            phones := phones[i := p];
            return Pass;
        }
        i := i + 1;
      }
      r := Pass;
    }

    /** add_birthday: a parsed date replaces any earlier one; a bad text raises and changes nothing. */
    method AddBirthday(text: string) returns (r: Outcome)
      requires Valid()
      modifies this
      ensures Valid() && phones == old(phones)
      ensures match ParseBirthday(text)
        case Ok(d) => r == Pass && birthday == Some(d)
        case Err(e) => r == Fail(e) && birthday == old(birthday)
    {
      match ParseBirthday(text)
      case Err(e) =>
        r := Fail(e);
      case Ok(d) =>
        birthday := Some(d);
        r := Pass;
    }

    /**
     * `str(record)`: name, the phones joined by "; ", and the birthday or "Not set". The birthday
     * is the last ten characters, and reading them back gives the stored date.
     */
    function Render(): (r: string)
      reads this
      requires Valid()
      ensures |r| >= 10
      ensures birthday.Some? ==> ParseBirthday(r[|r| - 10..]) == Ok(birthday.value)
      ensures birthday.None? ==> r[|r| - 7..] == "Not set"
    {
      var tail := match birthday case Some(d) => FormatBirthday(d) case None => "Not set";
      var r := "Contact name: " + name + ", phones: " + JoinPhones(phones) + ", birthday: " + tail;
      assert r[|r| - |tail|..] == tail;
      if birthday.Some? then FormatThenParse(birthday.value); r else r
    }
  }
}
