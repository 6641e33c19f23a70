# Contact book model

A Dafny model of the data model of a command-line contact book
(`goit-pycore-hw-08.py`). A contact book is a dictionary from names to
records. Each record holds a name, an ordered list of phone objects and an
optional birthday. The model covers:

- the field validators: a phone is exactly ten digits; a birthday is text
  that `datetime.strptime(text, "%d.%m.%Y")` accepts;
- the record operations: add, remove, edit and find a phone, and set the
  birthday;
- the book operations: add a record, find, delete, and the query for
  birthdays in the coming week;
- `add_contact`, the command handler that finds or creates a record and then
  adds a phone.

Modules, one per file:

- `Wrappers` (`wrappers.dfy`): `Option`, `Result` and `Outcome`. Exceptions
  become `Failure`/`Fail` values.
- `Errors` (`errors.dfy`): the exceptions raised, with their messages.
- `Sequences` (`sequences.dfy`): first-match search and removal, which is
  what the list scans and `list.remove` do.
- `Decimal` (`decimal.dfy`): reading and writing ASCII digit strings.
- `Calendar` (`calendar.dfy`): proleptic Gregorian dates as Python's
  `datetime.date` has them. It covers years 1 to 9999, `<`, ordinals (so
  `(a - b).days` is `Ordinal(a) - Ordinal(b)`), `replace(year=...)` and
  `strftime('%Y-%m-%d')`.
- `Fields` (`fields.dfy`): the `Phone` class and its validation, and the
  model of `strptime` for `"%d.%m.%Y"`.
- `Birthdays` (`birthdays.dfy`): the upcoming-birthdays query as functions,
  and what it means.
- `Contacts` (`contacts.dfy`): the `Record` and `AddressBook` classes.
  `Record.phones` is a sequence of `Phone` objects. `edit_phone` assigns
  the `value` field of one of them in place. `AddressBook` keeps the
  dictionary as a `map` plus its keys in insertion order. A Python dict is
  iterated in that order, and the query's result follows it.

How the model reads the code:

- `strptime("%d.%m.%Y")` is modelled on CPython's `_strptime` patterns.
  `%d` matches `3[01]`, `[12]\d`, `0[1-9]`, `[1-9]` or a space followed by
  `[1-9]`. `%m` matches `1[0-2]`, `0[1-9]` or `[1-9]`. `%Y` matches four
  digits. The whole text must be consumed. The date constructor then
  rejects year 0 and days the month does not have.
- So `"1.1.2020"` and `" 1.1.2020"` are accepted, while `"01.01.0000"`,
  `"30.02.2020"` and `"29.02.2021"` are rejected. So `DD.MM.YYYY` is not
  strictly enforced: CPython's `%d` and `%m` also accept one-digit forms,
  and the model follows the code.
- `edit_phone` does not validate the new number (line 52 assigns it
  directly). The model does the same, so a phone can hold any text after an
  edit.
- In `get_upcoming_birthdays`, `date.replace` raises `ValueError` in two
  cases: for 29 February in a common year, and for year 10000. The whole
  query then aborts. The model returns `Failure` with that error: the error
  of the first record, in key order, that raises.
  `Birthdays.NextOccurrenceFails` states exactly when this happens. A
  29 February birthday aborts the query unless today's year is a leap year
  and today is not after 29 February.
- `datetime.today()` is the parameter `today`.
- A record's birthday always parses (`Record.Valid`), because only
  `add_birthday` sets it, and only after validating it.

## Model

| member | source | states |
|---|---|---|
| `Fields.IsDigitString` | goit-pycore-hw-08.py:18 | `str.isdigit()`: true iff the text is non-empty and every character is a digit |
| `Fields.CheckPhone` | goit-pycore-hw-08.py:17-19 | the phone check passes iff the text has length 10 and consists of digits; otherwise it fails with `InvalidPhone`, whose message is "Phone number must be a 10-digit number" |
| `Fields.Phone.Create` | goit-pycore-hw-08.py:16-20 | constructing a Phone succeeds iff the check passes, giving a new object that holds the text unchanged; otherwise `InvalidPhone` |
| `Fields.ParseDate` | goit-pycore-hw-08.py:25 | whatever `strptime` parses is a real date: year 1..9999, month 1..12, day within the month under the Gregorian leap rule |
| `Fields.ParseDateSpellings` | goit-pycore-hw-08.py:25 | for every real date d, a text parses as d iff it is one of d's spellings: day and month as two digits (or one digit below 10, or a space and one digit for a day below 10), a dot between fields, and the year as four digits; so every `DD.MM.YYYY` text of a real date is read back as that date |
| `Fields.MakeBirthday` | goit-pycore-hw-08.py:22-28 | constructing a Birthday succeeds iff the text parses, and then stores the text itself; otherwise it fails with `InvalidDate`, whose message is "Invalid date format. Use DD.MM.YYYY" |
| `Fields.ShortFormsAccepted` | goit-pycore-hw-08.py:25 | `"1.1.2020"`, `" 1.1.2020"` and `"01.01.2020"` all parse as 1 January 2020 |
| `Fields.ThirtiethOfFebruaryRejected` | goit-pycore-hw-08.py:24-27 | `"30.02.2020"` does not parse |
| `Fields.LeapDayOfCommonYearRejected` | goit-pycore-hw-08.py:24-27 | `"29.02.2021"` does not parse |
| `Contacts.Record.constructor` | goit-pycore-hw-08.py:31-34 | a new record has the given name, no phones and no birthday |
| `Contacts.Record.AddPhone` | goit-pycore-hw-08.py:36-37 | a valid number is appended as one new phone object at the end and earlier phones are unchanged; an invalid one fails with `InvalidPhone` and leaves the list unchanged |
| `Contacts.Record.AddBirthday` | goit-pycore-hw-08.py:39-40 | valid text replaces any earlier birthday with that text; invalid text fails with `InvalidDate` and keeps the old birthday |
| `Contacts.Record.RemovePhone` | goit-pycore-hw-08.py:42-47 | it succeeds iff the number was present; then the phone list is the old list of objects with the first match cut out, and the others are the same objects in the same order; otherwise it fails with `PhoneNotFound` and changes nothing |
| `Sequences.FirstIndex` | goit-pycore-hw-08.py:62-64 | the scan for a number gives the first index holding it, and the length of the list exactly when it is absent |
| `Sequences.RemoveFirstSplit` | goit-pycore-hw-08.py:45 | `RemoveFirst` (`list.remove`) cuts out exactly the element at the first match, keeping everything before and after it in order; removing an absent value changes nothing |
| `Sequences.RemoveFirstCount` | goit-pycore-hw-08.py:43-46 | removing a present value shortens the list by one and takes exactly one copy out of its multiset of elements |
| `Contacts.Record.FindPhone` | goit-pycore-hw-08.py:61-65 | returns the phone object at the first index whose number matches, or null when no number matches |
| `Contacts.Record.EditPhone` | goit-pycore-hw-08.py:49-54 | when the old number is present, only the first matching position takes the new number (unvalidated), the list keeps its length and its objects; otherwise it fails with `PhoneNotFound` and nothing changes |
| `Contacts.AddressBook.constructor` | goit-pycore-hw-08.py:67 | a new book is empty |
| `Contacts.AddressBook.AddRecord` | goit-pycore-hw-08.py:68-69 | afterwards `Find(name)` returns the record, a second add under the same name replaces the first, other keys are untouched, and a new name goes last in iteration order |
| `Contacts.AddressBook.Find` | goit-pycore-hw-08.py:71-72 | returns the record under that name, which carries that name, or null iff the name is absent |
| `Contacts.AddressBook.Delete` | goit-pycore-hw-08.py:74-78 | a present name is removed and nothing else changes, so `Find` then returns null; an absent name fails with `ContactNotFound` (a `KeyError`) and the book is unchanged |
| `Contacts.AddressBook.CheckRecord` | goit-pycore-hw-08.py:85-98 | one pass of the loop computes exactly the record's outcome in the query specification |
| `Contacts.AddressBook.GetUpcomingBirthdays` | goit-pycore-hw-08.py:80-100 | the loop over the records in key order returns exactly the specified query result for today |
| `Contacts.AddressBook.AddContact` | goit-pycore-hw-08.py:130-136 | find or create the record, then add the phone; a new name is filed with an empty record even when the phone is invalid; an existing record keeps its birthday and its earlier phone objects; other records keep their phones and birthdays |
| `Calendar.Before` | goit-pycore-hw-08.py:89 | date `<` never holds between equal dates and is decided by the year when the years differ; `Calendar.BeforeIffOrdinal` states it completely |
| `Calendar.Ordinal` | goit-pycore-hw-08.py:92 | `toordinal`, through which `(b - a).days` is computed: 1 January of year 1 is day 1, and a date's day number lies within its own year's range of days |
| `Calendar.FormatIso` | goit-pycore-hw-08.py:97 | `strftime('%Y-%m-%d')` gives ten characters; `Calendar.FormatIsoFields` states its fields |
| `Calendar.Replace` | goit-pycore-hw-08.py:87-90 | `replace(year=y)` succeeds iff the same month and day form a valid date in year y, and then yields that date |
| `Calendar.ValidInYear` | goit-pycore-hw-08.py:87-90 | a birthday's month and day exist in year y iff y is in 1..9999 and, for 29 February, y is a leap year |
| `Calendar.BeforeIffOrdinal` | goit-pycore-hw-08.py:89-92 | the date comparison `<` and the day difference agree: a is before b iff `(b - a).days > 0`, and equal dates have difference 0 |
| `Calendar.FormatIsoFields` | goit-pycore-hw-08.py:97 | the ISO text has ten characters with dashes at positions 4 and 7, and its digit fields read back as year, month and day |
| `Calendar.FormatIsoInjective` | goit-pycore-hw-08.py:97 | different dates give different ISO texts |
| `Birthdays.NextOccurrence` | goit-pycore-hw-08.py:87-90 | a successful roll gives a real date with the birthday's month and day; `Birthdays.NextOccurrenceIsNext` and `Birthdays.NextOccurrenceFails` state which one and when it fails |
| `Birthdays.CheckEntry` | goit-pycore-hw-08.py:85-98 | a record without a birthday is skipped, and a reported item carries the record's name and a ten-character date; `Birthdays.CheckEntryWindow` states when it is reported |
| `Birthdays.NextOccurrenceIsNext` | goit-pycore-hw-08.py:87-92 | the rolled date has the birthday's month and day, lies in today's year or the next, is never before today, and is in the next year iff this year's date has passed |
| `Birthdays.NextOccurrenceFails` | goit-pycore-hw-08.py:87-90 | rolling fails iff the birthday is 29 February and not (today's year is a leap year and today is not after 29 February), or today's year is 9999 and the date has passed |
| `Birthdays.InWindowYears` | goit-pycore-hw-08.py:92-94 | a date in the window [today, today + 7 days] has today's year or the next |
| `Birthdays.CheckEntryWindow` | goit-pycore-hw-08.py:85-98 | a record with a birthday is reported iff an anniversary of the birthday falls within 0 to 7 days after today, and then it is reported with that date in ISO form |
| `Birthdays.CollectFailure` | goit-pycore-hw-08.py:84-100 | the query fails iff some record raises, and then with the error of the first such record |
| `Birthdays.CollectMembers` | goit-pycore-hw-08.py:84-98 | a successful result holds exactly the items reported for individual records, at most one per record |
| `Birthdays.UpcomingExactly` | goit-pycore-hw-08.py:80-100 | when the query does not abort, it lists (name, date) exactly when some record with that name has a birthday whose anniversary r is 0 to 7 days after today and date is r in ISO form |
| `Birthdays.JuneExamples` | goit-pycore-hw-08.py:87-94 | with today 2024-06-01 the birthdays on 3, 1 and 8 June fall 2, 0 and 7 days out, 9 June falls 8 days out, and 31 May rolls to 2025 |
| `Birthdays.YearWrapExample` | goit-pycore-hw-08.py:87-94 | with today 2024-12-30 a 2 January birthday rolls to 2025-01-02, 3 days out |
| `Birthdays.LeapDayExamples` | goit-pycore-hw-08.py:87-90 | a 29 February birthday fails on 2025-02-20 and on 2024-03-01, and rolls to 2024-02-29 on 2024-02-25 |

## Left out

- Persistence (`save_address_book_to_file`, `load_address_book_from_file`, lines 103-115): file I/O and pickle serialisation.
- The `input_error` decorator (lines 117-127): it turns exceptions into strings. The model returns the error kind instead; `Errors.Message` holds the text.
- The command handlers other than `add_contact` (lines 138-184), `parse_input` (lines 186-191) and `main` (lines 193-274): string formatting, console I/O and command dispatch. Note that `main` checks the phone before it calls `add_contact` (line 212). So the empty record that `AddContact` leaves for an invalid phone is not reachable from the console.
- `Record.__str__` and `Field.__str__` (lines 10-11, 56-59): display formatting only.
- `datetime.today()` (line 81): the clock is the parameter `today`.
- `AddressBook`'s other dictionary behaviour inherited from `UserDict` (`len`, iteration, item assignment): not called by the core.
- Unicode: `str.isdigit` and `strptime`'s `\d` also accept non-ASCII digits. The model accepts only `'0'..'9'`.
- `strftime('%Y')` for years below 1000 is platform-dependent: glibc does not pad them. The model always pads to four digits. Such years cannot occur for a real `today`.
- The exact text of `date.replace`'s errors depends on the Python implementation. The model gives only the error kind (day or year out of range), with the C implementation's wording in `Errors.Message`.
- `Birthdays.CheckEntry` also has the case where a stored birthday does not parse (`strptime` raising at line 86). A valid record never reaches it.
- Exception chaining (`raise ... from exception`, line 27): not modelled.
