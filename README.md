# Contact book: records, validated fields and the upcoming-birthdays query

This project models the in-memory data layer of a console address book, all of it in `main.py`:

- the field validators: `Phone`, exactly ten digits, kept as given; `Birthday`, a `DD.MM.YYYY` text read by `strptime` into a real date and written back by `strftime`;
- `Record`, one contact: a name, an ordered list of phones with append, remove-all-matching and replace-first-match edits, an optional birthday, and the days-until-next-birthday calculation;
- `AddressBook`, a dict from names to records with insert-or-overwrite, lookup and delete, plus `get_upcoming_birthdays`. That query:
  - keeps the records whose next birthday falls in `[today, today + 7]`;
  - greets a weekday birthday on the day itself, and a weekend birthday on the Monday of the week holding `today + 7`;
  - sorts the entries by their `%Y.%m.%d` text.

Dates follow Python's `datetime.date`:
- the proleptic Gregorian calendar from 0001-01-01 to 9999-12-31;
- day numbers as `toordinal()` counts them;
- Monday as weekday 0;
- comparison as tuples;
- `timedelta` additions that overflow at either end;
- `replace(year=...)`, which fails for 29 February in a common year.

Every Python exception the core can raise becomes an error value (`Base.Result`, `Base.Outcome`), so each error path is part of the model. The clock read `datetime.today()` becomes a `today` parameter.

Modules:
- `Base`: error kinds, `Option`, `Result`.
- `Seqs`: first occurrence, removal of all occurrences, distinctness, Python's string order.
- `Calendar`: dates, day numbers, weekdays, day arithmetic, `replace`.
- `Decimal`: zero-padded decimal texts.
- `Fields`: `Phone` and `Birthday`.
- `Records`: `Record` and the birthday calculation.
- `Book`: `AddressBook` and the query.

Where the records are mutated in place, the model is a class:
- `Records.Record` has a `seq` of phones and an `Option` birthday;
- `Book.AddressBook` has a `map` from names to records and a `seq` holding the dict's key order.

The query is a loop method, proved equal to the function `Book.Upcoming`. The properties of the query are then proved about that function.

## Model

| member | source | states |
|---|---|---|
| Fields.NewPhone | main.py:32-42 | a phone is accepted exactly when it is ten characters `0`..`9`, and it is kept unchanged; any other text is refused with a phone-format error |
| Fields.ParseBirthday | main.py:45-50 | `Birthday(text)` yields only real dates; any text strptime refuses gives the birthday-format error |
| Fields.ParseFields | main.py:46-50 | a day text and a month text without dots, joined with a year text by two dots, are accepted exactly when the three are `%d`, `%m` and `%Y` tokens naming a real date, which is then the result; otherwise the birthday-format error |
| Fields.ParseTokens | main.py:48-50 | what the three tokens give is always a real date, and the only error is the birthday-format error |
| Fields.ParsedFields | main.py:48 | a text that parses is its day, month and year tokens joined by the two dots, and parses exactly as those tokens do |
| Fields.PaddedDay | main.py:48-53 | the two-digit day `%d` writes is a `%d` token that reads back as that day |
| Fields.PaddedMonth | main.py:48-53 | the two-digit month `%m` writes is a `%m` token that reads back as that month |
| Fields.FormatFields | main.py:48-53 | two-digit day and month tokens without a leading space, with four year digits, are exactly what `strftime` writes for the date they read as |
| Fields.FormatBirthday | main.py:52-53 | `str(birthday)` is ten characters: two digits, a dot, two digits, a dot, four digits |
| Fields.FormatThenParse | main.py:45-53 | reading back what `str(birthday)` writes gives the same date |
| Fields.ParseThenFormat | main.py:45-53 | a ten-character text that parses and does not start with a space is exactly what `str(birthday)` writes for its date |
| Fields.ParseAcceptsUnpadded | main.py:48 | `5.6.2000` is accepted as 5 June 2000, since `%d` and `%m` take one digit |
| Fields.ParseAcceptsSpacedDay | main.py:48 | ` 5.06.2000` is accepted as 5 June 2000, since `%d` takes a leading space |
| Fields.ParseRejectsFeb29 | main.py:46-50 | `29.02.2023` is refused, since 2023 is a common year |
| Fields.ParseRejectsYearZero | main.py:46-50 | `01.01.0000` is refused, since year 0 does not exist |
| Fields.FieldThenDot | main.py:126-141 | a text led by a zero-padded field and a dot compares first by the field's number, then by the rest |
| Fields.DateText | main.py:126-127 | a congratulation date is written as ten characters: four digits, a dot, two digits, a dot, two digits |
| Fields.DateTextOrder | main.py:126-141 | comparing two `%Y.%m.%d` texts as strings orders them exactly as their dates |
| Decimal.PadValue | main.py:53 | a number written zero-padded reads back as the same number |
| Decimal.ValuePad | main.py:48 | a digit text is the zero-padded writing of the number it reads as |
| Decimal.PadOrder | main.py:141 | zero-padded numbers of one width compare as texts exactly as they compare as numbers |
| Calendar.OrdinalRange | main.py:107-108 | every representable date has a day number in 1..3652059 |
| Calendar.OrdinalOrder | main.py:81 | Python's date comparison agrees with day-number order, in both directions |
| Calendar.OrdinalInjective | main.py:121 | different dates have different day numbers |
| Calendar.Tomorrow | main.py:107 | the next day has the next day number; it fails with an overflow after 9999-12-31 |
| Calendar.Yesterday | main.py:108 | the previous day has the previous day number; it fails with an overflow before 0001-01-01 |
| Calendar.AddDays | main.py:107-108 | `d + timedelta(days=n)` succeeds exactly when the day number stays in range, and then moves it by `n` |
| Calendar.WeekdayShift | main.py:108 | moving `n` days moves the weekday `n` places round the week |
| Calendar.WeekdayWithinWeek | main.py:108 | two days less than a week apart with the same weekday are the same day |
| Calendar.ReplaceYear | main.py:80-82 | `replace(year=y)` keeps month and day; it fails exactly for a year outside 1..9999 or for 29 February in a common year |
| Records.NextOccurrence | main.py:113-119 | the birthday's next occurrence on or after today, in today's year or the next; it fails exactly when that `replace` is impossible |
| Records.DaysToBirthday | main.py:77-84 | None exactly without a birthday; otherwise the number of days from today to the next occurrence, in 0..365 and 0 exactly when today is the birthday's month and day; it fails only where `replace` does |
| Records.NextWithinYear | main.py:80-83 | the next occurrence is at most 365 days after today |
| Records.DaysToBirthdayAsWritten | main.py:77-84 | as the code stands: None without a birthday, otherwise always an error and never a count |
| Records.DaysToBirthdayDiscrepancy | main.py:80-83 | for a birthday two days ahead, the code as written fails while the corrected calculation gives 2 |
| Records.JoinPhones | main.py:87 | no phones give the empty text; otherwise the joined text starts with the first phone and ends with the last |
| Records.JoinPhonesLayout | main.py:87 | the phones joined by `"; "` have length 12n-2, and phone k starts at offset 12k |
| Records.Record.constructor | main.py:57-60 | a new record has the given name, no phones and no birthday |
| Records.Record.AddPhone | main.py:62-63 | a valid phone is appended at the end; an invalid one fails and leaves the list unchanged; the birthday is untouched |
| Records.Record.RemovePhone | main.py:65-66 | the new list is the old one without the entries equal to the phone, in the same order; it is unchanged when the phone is absent |
| Records.Record.EditPhone | main.py:68-72 | only the first entry equal to the old phone is replaced, at its index; an absent old phone changes nothing; an invalid new phone fails and changes nothing |
| Records.Record.AddBirthday | main.py:74-75 | a parsed date replaces the birthday; a text that does not parse fails and changes nothing |
| Records.Record.Render | main.py:86-91 | the display ends with the birthday, which reads back as the stored date, or with `Not set` |
| Seqs.Without | main.py:66 | the kept elements are the old ones with every `x` removed and the others counted as often as before; without an `x` the list is unchanged |
| Seqs.WithoutMembers | main.py:66 | every kept element was in the old list and differs from `x`; every old element that differs from `x` is kept |
| Seqs.WithoutConcat | main.py:66 | filtering keeps the relative order: filtering a concatenation concatenates the filtered parts, and one element is kept exactly when it differs from `x` |
| Seqs.WithoutDistinct | main.py:101-103 | removing elements from a list without repeats leaves a list without repeats |
| Seqs.FirstIndex | main.py:69-70 | the first index holding `x`, or None exactly when `x` is absent |
| Book.AddressBook.constructor | main.py:94 | a new book is empty, so its invariant and the validity of its records hold |
| Book.AddressBook.Find | main.py:98-99 | a record is found exactly when the name is a key, and that record carries the name; lookup changes nothing |
| Book.AddressBook.AddRecord | main.py:95-96 | the record is stored under its name, overwriting any earlier one; a new name goes last in key order; `Find` then returns it; every other name finds what it found before; storing a record built through `Record`'s methods keeps every stored record valid |
| Book.AddressBook.Delete | main.py:101-103 | the name leaves the dict and the key order, the other keys keep their order; the name is no longer found, every other name finds what it found before; a missing name changes nothing; the remaining records stay valid |
| Book.DeleteIndexed | main.py:101-103 | removing one key from the dict and from the key order keeps every key listed exactly once and every record under its own name |
| Book.AddressBook.Contacts | main.py:111 | one contact per key, in key order, carrying that record's name and birthday |
| Book.AddressBook.RecordsGiveValidContacts | main.py:112-113 | the records the class's methods build give the query only real birthdays |
| Book.AddressBook.UpcomingBirthdays | main.py:105-141 | the query over the book's records, in key order, computes `Upcoming` |
| Book.AddressBook.CollectRecords | main.py:111-139 | the loop over the records in key order, stopping at the first error, computes `Collect` |
| Book.GreetingDay | main.py:121-138 | a birthday is greeted on its own day exactly when that is a weekday (or is the Monday itself), otherwise on the Monday; with a real Monday, the greeting day is a weekday |
| Book.Extend | main.py:112-139 | one pass fails exactly when the record's next birthday cannot be formed; otherwise it either leaves the found entries alone, and then the record yields no entry, or appends exactly one entry that the record yields |
| Book.Visit | main.py:112-139 | one pass of the loop body appends the record's entry exactly when its next birthday is in the window, greeted on the day itself on a weekday and on the Monday at a weekend; it fails with `replace`'s error |
| Book.Window | main.py:106-108 | `next_week` is today + 7; its Monday is a Monday within [today + 1, today + 7]; both fail only past 9999-12-24 |
| Book.Collect | main.py:111-139 | every found entry carries a real date, there is at most one entry per record, and the loop can fail only with the error `replace` raises |
| Book.CollectPrefix | main.py:111-139 | the loop over `i + 1` records is the loop over `i` records followed by one pass of the body, unless it has already failed |
| Book.CollectStep | main.py:111-139 | a pass that fails ends the whole loop with its error; a pass that succeeds gives the loop's result over one more record |
| Book.CollectErrStays | main.py:111-119 | once one record's `replace` fails, the later records change nothing |
| Book.CollectFails | main.py:111-119 | the loop fails exactly when some record's next birthday cannot be formed |
| Book.CollectIncludes | main.py:121-139 | each record whose next birthday lies in the window contributes its entry |
| Book.CollectOnlyFrom | main.py:121-139 | each found entry comes from a record whose next birthday lies in the window |
| Book.Insert | main.py:141 | inserting adds exactly one entry and keeps the rest |
| Book.InsertChronological | main.py:141 | inserting into a list in date order keeps it in date order |
| Book.InsertOnDate | main.py:141 | an inserted entry goes before the entries already there for its day, and those keep their order |
| Book.SortByDate | main.py:141 | the sort is a permutation of its input |
| Book.SortChronological | main.py:141 | the sort's result is in date order |
| Book.SortStable | main.py:141 | entries with equal congratulation dates keep the order the loop found them in |
| Book.Upcoming | main.py:105-141 | the query's result carries real dates, at most one entry per record; its only errors are the overflow of `today + 7` and `replace`'s error |
| Book.UpcomingFails | main.py:105-141 | the query fails exactly when today + 7 passes 9999-12-31 or some record's `replace` fails |
| Book.GreetingInWindow | main.py:121-138 | a birthday in [today, next_week] is greeted on a weekday within [today, today + 7] |
| Book.FoundInWindow | main.py:121-139 | every entry the loop finds is greeted on a weekday within [today, today + 7] |
| Book.UpcomingWindow | main.py:121-139 | every congratulation date is a weekday within [today, today + 7] |
| Book.UpcomingSorted | main.py:141 | the result is sorted by its `%Y.%m.%d` texts, and so by date |
| Book.UpcomingMembers | main.py:111-139 | an entry is in the result exactly when some record's next birthday lies in [today, next_week] and the entry greets it on that day, or on the Monday for a weekend birthday |
| Book.ExampleWeek | main.py:105-141 | with today Monday 2024-06-03, birthdays on 5 June and on Saturday 8 June are greeted on 5 June and on Monday 10 June, in that order |
| Book.ExampleCollect | main.py:111-139 | the loop over Anna and Bob finds Anna on 5 June and then Bob on Monday 10 June |
| Book.ExampleOrdinals | main.py:106-108 | 2024-06-03, 05, 08 and 10 have the day numbers `toordinal` gives them |
| Book.ExampleWeekdays | main.py:108-122 | 2024-06-03 is a Monday, 5 June a Wednesday, 8 June a Saturday and 10 June a Monday |
| Book.ExampleWindow | main.py:107-108 | for Monday 2024-06-03, `next_week` and its Monday are both 2024-06-10 |
| Book.ExampleAnna | main.py:121-129 | a Wednesday birthday in the window is greeted on its own day |
| Book.ExampleBob | main.py:131-138 | a Saturday birthday in the window is greeted on the Monday |
| Book.ExampleSorted | main.py:141 | two entries already in date order stay in that order |

## Left out

- `save_data` and `load_data` (main.py:7-17) are pickle file I/O and are not modelled. The book is taken to round-trip through them unchanged.
- The `input_error` decorator, the command handlers, `parse_input` and the `main` loop (main.py:145-266) are console glue around the core and are not modelled.
- `datetime.today()` (main.py:79, main.py:106) is a clock read; `today` is a parameter instead.
- `Fields.NewPhone`: `\d` in Python's regular expressions also matches non-ASCII decimal digits, such as Arabic-Indic ones. The model accepts only `0`..`9`.
- `Fields.ParseBirthday`: strptime's `%Y` pattern and the `[12]\d` branch of its `%d` pattern use `\d`, which also matches non-ASCII decimal digits (a fullwidth `２０００` year, say), and `int()` reads them. The model accepts only `0`..`9`, so it refuses such texts where `Birthday` accepts them.
- `Fields.ParseTokens`: the same restriction to ASCII digits applies to the day and year tokens.
- `Fields.FormatBirthday`, `Fields.DateText`, `Book.UpcomingSorted`: `strftime("%Y")` is modelled as four zero-padded digits. Some C libraries write years below 1000 with fewer digits. On those, the round trip depends on the platform, and `"999.12.31"` sorts after `"1000.01.01"`, so text order is not date order for a window that crosses into year 1000.
- `Records.Record.Render`: the `name` and phone parts are modelled as plain concatenation. The contract states only the tail of the text.
- `Book.SortByDate`: Python's `sorted` is Timsort; the model is an insertion sort. Both are stable and use the same key, so they give the same list.
- The `Name` field does no validation. `Record` keeps any name, including an empty one; the model follows the code.
- The query and `days_to_birthday` raise when `replace` cannot form 29 February in a common year. The model keeps that failure as an error value and invents no date for it. In the query, the first failing record in key order decides the error.
- The overflow that `today + timedelta(days=7)` raises after 9999-12-24 is kept as an error value, as is every other exception.
- `Book.AddressBook.UpcomingBirthdays` requires only that the stored birthdays be real dates. The book's constructor, `AddRecord` (given a record built through `Record`'s methods) and `Delete` keep every stored record valid, and valid records meet this (`Book.AddressBook.RecordsGiveValidContacts`).
- Object identity and aliasing of `Record`s shared between books are not modelled. The book maps names to record references and never reads through two of them at once.

## Findings

| source | as written | input that shows it | evidently intended | confidence | as-written member | corrected member |
|---|---|---|---|---|---|---|
| main.py:77-84 | `self.birthday.value` is the `datetime` that `strptime` returns, and `replace` keeps it a `datetime`; comparing it with `today`, a `date`, raises `TypeError`, so `days_to_birthday` never returns a count | a record with birthday `05.06.1990` on 2024-06-03 | compare dates, as `get_upcoming_birthdays` does with `.date()`, giving 2 | high; not executed | Records.DaysToBirthdayAsWritten, Records.DaysToBirthdayDiscrepancy | Records.DaysToBirthday |
