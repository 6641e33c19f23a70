/** The upcoming-birthdays query of the address book as a function of the
    day it runs and the records it visits, with what it means: exactly the
    records whose birthday falls in the coming week, each with that date. */
module Birthdays {
  import opened Wrappers
  import opened Errors
  import opened Calendar
  import opened Fields

  /** How many days ahead the query looks, both ends included. */
  const WindowDays := 7

  /** What the query reads of one record: its name and birthday text. */
  datatype Entry = Entry(name: string, birthday: Option<string>)

  /** One element of the result: {"name": ..., "congratulation_date": ...}. */
  datatype Congratulation = Congratulation(name: string, congratulationDate: string)

  /** The birthday's month and day in today's year, or in the next year
      when that date is already past; date.replace raises on 29 February
      in a common year and on year 10000. */
  function NextOccurrence(today: Date, bd: Date): (r: Result<Date, Error>)
    requires ValidDate(today) && ValidDate(bd)
    ensures r.Success? ==> ValidDate(r.value) && r.value.month == bd.month && r.value.day == bd.day
  {
    match Replace(bd, today.year)
    case Failure(e) => Failure(e)
    case Success(thisYear) =>
      if Before(thisYear, today) then Replace(thisYear, today.year + 1) else Success(thisYear)
  }

  /** (date - today).days */
  function DaysUntil(today: Date, d: Date): int
    requires ValidDate(today) && ValidDate(d)
  {
    Ordinal(d) - Ordinal(today)
  }

  /** The record for one entry: skipped without birthday, reported when the
      next occurrence is at most a week away, or the error that aborts the
      whole query. */
  function CheckEntry(today: Date, e: Entry): (r: Result<Option<Congratulation>, Error>)
    requires ValidDate(today)
    ensures e.birthday.None? ==> r == Success(None)
    ensures r.Success? && r.value.Some? ==>
      r.value.value.name == e.name && |r.value.value.congratulationDate| == 10
  {
    if e.birthday.None? then Success(None)
    else
      match ParseDate(e.birthday.value)
      case None => Failure(InvalidDate)
      case Some(bd) =>
        match NextOccurrence(today, bd)
        case Failure(err) => Failure(err)
        case Success(r) =>
          var days := DaysUntil(today, r);
          if 0 <= days <= WindowDays then Success(Some(Congratulation(e.name, FormatIso(r))))
          else Success(None)
  }

  /** The outcome for each entry, in order. */
  function Outcomes(today: Date, es: seq<Entry>): (os: seq<Result<Option<Congratulation>, Error>>)
    requires ValidDate(today)
    ensures |os| == |es|
    ensures forall i :: 0 <= i < |es| ==> os[i] == CheckEntry(today, es[i])
  {
    seq(|es|, i requires 0 <= i < |es| => CheckEntry(today, es[i]))
  }

  /** The list a loop builds that visits the outcomes in order, appends
      each reported item and stops at the first error. */
  function Collect<C, E>(os: seq<Result<Option<C>, E>>): Result<seq<C>, E> {
    if os == [] then Success([])
    else
      match Collect(os[..|os| - 1])
      case Failure(err) => Failure(err)
      case Success(acc) =>
        match os[|os| - 1]
        case Failure(err) => Failure(err)
        case Success(None) => Success(acc)
        case Success(Some(c)) => Success(acc + [c])
  }

  /** The result of get_upcoming_birthdays for the entries in iteration
      order. */
  function Upcoming(today: Date, es: seq<Entry>): Result<seq<Congratulation>, Error>
    requires ValidDate(today)
  {
    Collect(Outcomes(today, es))
  }

  /** CheckEntry for a record with a birthday, in terms of its next
      occurrence. */
  lemma CheckEntryByOccurrence(today: Date, e: Entry, bd: Date)
    requires ValidDate(today) && e.birthday.Some? && ParseDate(e.birthday.value) == Some(bd)
    ensures NextOccurrence(today, bd).Failure? ==>
      CheckEntry(today, e) == Failure(NextOccurrence(today, bd).error)
    ensures NextOccurrence(today, bd).Success? ==>
      var r := NextOccurrence(today, bd).value;
      CheckEntry(today, e) ==
        if 0 <= DaysUntil(today, r) <= WindowDays then Success(Some(Congratulation(e.name, FormatIso(r))))
        else Success(None)
  {
  }

  /** Date r is an anniversary of birthday bd in the week starting today. */
  predicate InWindow(today: Date, bd: Date, r: Date)
    requires ValidDate(today)
  {
    ValidDate(r) && r.month == bd.month && r.day == bd.day && 0 <= DaysUntil(today, r) <= WindowDays
  }

  // ------------------------------------------------------- rolling forward

  /** A successful roll lands on the birthday's month and day, in today's
      year or the next, never before today, and in the next year only when
      this year's date has passed. */
  lemma NextOccurrenceIsNext(today: Date, bd: Date)
    requires ValidDate(today) && ValidDate(bd) && NextOccurrence(today, bd).Success?
    ensures var r := NextOccurrence(today, bd).value;
      && ValidDate(r) && r.month == bd.month && r.day == bd.day
      && today.year <= r.year <= today.year + 1
      && !Before(r, today) && DaysUntil(today, r) >= 0
      && (r.year == today.year + 1 <==> Before(Date(today.year, bd.month, bd.day), today))
  {
    var r := NextOccurrence(today, bd).value;
    BeforeIffOrdinal(r, today);
  }

  /** Exactly when the query aborts on a birthday: 29 February unless
      today's year is a leap year and today is not past 29 February, or any
      birthday already past in year 9999. */
  lemma NextOccurrenceFails(today: Date, bd: Date)
    requires ValidDate(today) && ValidDate(bd)
    ensures NextOccurrence(today, bd).Failure? <==>
      || (bd.month == 2 && bd.day == 29 && !(IsLeap(today.year) && !Before(Date(today.year, 2, 29), today)))
      || (today.year == MaxYear && Before(Date(MaxYear, bd.month, bd.day), today))
  {
    ValidInYear(bd, today.year);
    ValidInYear(bd, today.year + 1);
    if bd.month == 2 && bd.day == 29 && IsLeap(today.year) {
      assert !IsLeap(today.year + 1);
    }
  }

  // ------------------------------------------------------------ the window

  /** A date in the window is in today's year or the next. */
  lemma InWindowYears(today: Date, bd: Date, r: Date)
    requires ValidDate(today) && InWindow(today, bd, r)
    ensures today.year <= r.year <= today.year + 1
  {
    if r.year < today.year {
      BeforeIffOrdinal(r, today);
    } else if r.year > today.year + 1 {
      DaysBeforeYearStep(today.year);
      DaysBeforeYearGrows(today.year + 1, r.year);
    }
  }

  /** For a birthday that does not abort the query, the record is reported
      exactly when an anniversary of the birthday falls in the coming week
      (today and today + 7 included), and then with that date. */
  lemma CheckEntryWindow(today: Date, e: Entry, bd: Date)
    requires ValidDate(today) && e.birthday.Some? && ParseDate(e.birthday.value) == Some(bd)
    requires NextOccurrence(today, bd).Success?
    ensures CheckEntry(today, e).Success?
    ensures CheckEntry(today, e).value.Some? <==> exists r :: InWindow(today, bd, r)
    ensures forall r :: InWindow(today, bd, r) ==>
      CheckEntry(today, e).value == Some(Congratulation(e.name, FormatIso(r)))
  {
    var r0 := NextOccurrence(today, bd).value;
    NextOccurrenceIsNext(today, bd);
    if CheckEntry(today, e).value.Some? {
      assert InWindow(today, bd, r0);
    }
    forall r | InWindow(today, bd, r)
      ensures CheckEntry(today, e).value == Some(Congratulation(e.name, FormatIso(r)))
    {
      if r.year < r0.year {
        BeforeIffOrdinal(r, today);
      } else if r0.year < r.year {
        YearsApart(r0, r);
      } else {
        assert r == r0;
      }
    }
  }

  // --------------------------------------------------------- the whole list

  /** One more outcome: the step the loop takes. */
  lemma CollectSnoc<C, E>(os: seq<Result<Option<C>, E>>, n: nat, acc: seq<C>)
    requires n < |os| && Collect(os[..n]) == Success(acc)
    ensures Collect(os[..n + 1]) ==
      match os[n]
      case Failure(err) => Failure(err)
      case Success(None) => Success(acc)
      case Success(Some(c)) => Success(acc + [c])
  {
    assert os[..n + 1][..n] == os[..n];
  }

  /** Once a prefix fails, the whole list fails with that prefix's error. */
  lemma {:induction false} CollectPrefixFailure<C, E>(os: seq<Result<Option<C>, E>>, n: nat)
    requires n <= |os| && Collect(os[..n]).Failure?
    ensures Collect(os) == Collect(os[..n])
    decreases |os| - n
  {
    if n < |os| {
      var m := n + 1;
      assert os[..m][..n] == os[..n];
      if m < |os| {
        CollectPrefixFailure(os, m);
      } else {
        assert os[..m] == os;
      }
    } else {
      assert os[..n] == os;
    }
  }

  /** The list fails exactly when some outcome is an error, and then with
      the first error. */
  lemma {:induction false} CollectFailure<C, E>(os: seq<Result<Option<C>, E>>)
    ensures Collect(os).Success? <==> forall i :: 0 <= i < |os| ==> os[i].Success?
    ensures Collect(os).Failure? ==>
      exists k :: && 0 <= k < |os|
                  && os[k] == Failure(Collect(os).error)
                  && forall j :: 0 <= j < k ==> os[j].Success?
  {
    if os != [] {
      var init := os[..|os| - 1];
      CollectFailure(init);
      assert forall i :: 0 <= i < |init| ==> init[i] == os[i];
    }
  }

  /** A successful list holds exactly the reported items, at most one per
      outcome. */
  lemma {:induction false} CollectMembers<C, E>(os: seq<Result<Option<C>, E>>)
    requires Collect(os).Success?
    ensures |Collect(os).value| <= |os|
    ensures forall c :: c in Collect(os).value <==> Success(Some(c)) in os
  {
    if os != [] {
      var init := os[..|os| - 1];
      CollectMembers(init);
      assert os == init + [os[|os| - 1]];
    }
  }

  /** The query's result, when it does not abort: a congratulation for
      name n and date text t is listed exactly when some entry named n has a
      birthday with an anniversary r in the coming week and t is r in ISO
      form. */
  lemma UpcomingExactly(today: Date, es: seq<Entry>)
    requires ValidDate(today) && Upcoming(today, es).Success?
    ensures forall c :: c in Upcoming(today, es).value <==>
      exists i, r :: 0 <= i < |es| && es[i].birthday.Some? && ParseDate(es[i].birthday.value).Some?
        && InWindow(today, ParseDate(es[i].birthday.value).value, r)
        && c == Congratulation(es[i].name, FormatIso(r))
  {
    var os := Outcomes(today, es);
    CollectMembers(os);
    CollectFailure(os);
    forall i | 0 <= i < |es| && es[i].birthday.Some? && ParseDate(es[i].birthday.value).Some?
      ensures NextOccurrence(today, ParseDate(es[i].birthday.value).value).Success?
    {
      assert CheckEntry(today, es[i]).Success?;
    }
    forall c ensures c in Upcoming(today, es).value <==>
      exists i, r :: 0 <= i < |es| && es[i].birthday.Some? && ParseDate(es[i].birthday.value).Some?
        && InWindow(today, ParseDate(es[i].birthday.value).value, r)
        && c == Congratulation(es[i].name, FormatIso(r))
    {
      if c in Upcoming(today, es).value {
        var i :| 0 <= i < |os| && os[i] == Success(Some(c));
        var bd := ParseDate(es[i].birthday.value).value;
        CheckEntryWindow(today, es[i], bd);
        var r :| InWindow(today, bd, r);
        assert c == Congratulation(es[i].name, FormatIso(r));
      }
      if exists i, r ::
           && 0 <= i < |es| && es[i].birthday.Some? && ParseDate(es[i].birthday.value).Some?
           && InWindow(today, ParseDate(es[i].birthday.value).value, r)
           && c == Congratulation(es[i].name, FormatIso(r))
      {
        var i, r :| 0 <= i < |es| && es[i].birthday.Some? && ParseDate(es[i].birthday.value).Some?
          && InWindow(today, ParseDate(es[i].birthday.value).value, r)
          && c == Congratulation(es[i].name, FormatIso(r));
        CheckEntryWindow(today, es[i], ParseDate(es[i].birthday.value).value);
        assert os[i] == Success(Some(c));
      }
    }
  }

  // ------------------------------------------------------------- examples

  /** With today 1 June 2024: 3 June is two days out, today itself and the
      8th (seven days out) are included, the 9th is eight days out, and 31
      May has passed and rolls to 2025, far outside the week. */
  lemma JuneExamples()
    ensures var today := Date(2024, 6, 1);
      && NextOccurrence(today, Date(1990, 6, 3)) == Success(Date(2024, 6, 3))
      && DaysUntil(today, Date(2024, 6, 3)) == 2
      && NextOccurrence(today, Date(1985, 6, 1)) == Success(today)
      && DaysUntil(today, today) == 0
      && NextOccurrence(today, Date(1990, 6, 8)) == Success(Date(2024, 6, 8))
      && DaysUntil(today, Date(2024, 6, 8)) == 7
      && NextOccurrence(today, Date(1990, 6, 9)) == Success(Date(2024, 6, 9))
      && DaysUntil(today, Date(2024, 6, 9)) == 8
      && NextOccurrence(today, Date(1990, 5, 31)) == Success(Date(2025, 5, 31))
      && DaysUntil(today, Date(2025, 5, 31)) > WindowDays
  {
  }

  /** With today 30 December 2024, a 2 January birthday rolls into 2025 and
      is three days out. */
  lemma YearWrapExample()
    ensures var today := Date(2024, 12, 30);
      && NextOccurrence(today, Date(1990, 1, 2)) == Success(Date(2025, 1, 2))
      && DaysUntil(today, Date(2025, 1, 2)) == 3
  {
  }

  /** A 29 February birthday aborts the query in a common year, and after
      29 February of a leap year. */
  lemma LeapDayExamples()
    ensures NextOccurrence(Date(2025, 2, 20), Date(2000, 2, 29)) == Failure(DayOutOfRange)
    ensures NextOccurrence(Date(2024, 3, 1), Date(2000, 2, 29)) == Failure(DayOutOfRange)
    ensures NextOccurrence(Date(2024, 2, 25), Date(2000, 2, 29)) == Success(Date(2024, 2, 29))
  {
  }
}
