/** The validating fields of a contact record: Phone (exactly ten digits)
    and Birthday (text that datetime.strptime(text, "%d.%m.%Y") parses). */
module Fields {
  import opened Wrappers
  import opened Errors
  import opened Sequences
  import opened Decimal
  import opened Calendar

  // ---------------------------------------------------------------- Phone

  /** str.isdigit() on ASCII text: non-empty and digits only. */
  function IsDigitString(s: string): (r: bool)
    ensures r <==> |s| > 0 && AllDigits(s)
  {
    |s| > 0 && IsDigit(s[0]) && (|s| == 1 || IsDigitString(s[1..]))
  }

  /** The check in Phone.__init__: it raises unless the text is ten digits. */
  function CheckPhone(value: string): (r: Outcome<Error>)
    ensures r.Pass? <==> |value| == 10 && AllDigits(value)
    ensures r.Fail? ==> r.error == InvalidPhone && Message(r.error) == "Phone number must be a 10-digit number"
  {
    if !IsDigitString(value) || |value| != 10 then Fail(InvalidPhone) else Pass
  }

  /** A phone object of a record. Its value is validated when it is made,
      but Record.edit_phone later assigns it without validation. */
  class Phone {
    var value: string

    /** Field.__init__: store the value. */
    constructor (value: string)
      ensures this.value == value
    {
      this.value := value;
    }

    /** Phone(value): validate, then construct. */
    static method Create(value: string) returns (r: Result<Phone, Error>)
      ensures r.Success? <==> CheckPhone(value).Pass?
      ensures r.Success? ==> fresh(r.value) && r.value.value == value
      ensures r.Failure? ==> r.error == InvalidPhone
    {
      var check := CheckPhone(value);
      if check.Fail? {
        return Failure(check.error);
      }
      var p := new Phone(value);
      return Success(p);
    }
  }

  // ---------------------------------------------------- strptime %d.%m.%Y

  /** The text %d matches (3[01], [12] digit, 0[1-9], [1-9], or a space and
      [1-9]) and the day it denotes. */
  function DayValue(t: string): Option<int> {
    if |t| == 1 && IsDigit(t[0]) && t[0] != '0' then Some(DigitValue(t[0]))
    else if |t| == 2 && t[0] == ' ' && IsDigit(t[1]) && t[1] != '0' then Some(DigitValue(t[1]))
    else if |t| == 2 && AllDigits(t) && 1 <= Value(t) <= 31 then Some(Value(t))
    else None
  }

  /** The text %m matches (1[0-2], 0[1-9] or [1-9]) and the month. */
  function MonthValue(t: string): Option<int> {
    if |t| == 1 && IsDigit(t[0]) && t[0] != '0' then Some(DigitValue(t[0]))
    else if |t| == 2 && AllDigits(t) && 1 <= Value(t) <= 12 then Some(Value(t))
    else None
  }

  /** The text %Y matches (exactly four digits) and the year. */
  function YearValue(t: string): Option<int> {
    if |t| == 4 && AllDigits(t) then Some(Value(t)) else None
  }

  /** Cutting s at its first dot. */
  lemma DotSplit(s: string, i: nat)
    requires i == FirstIndex(s, '.') < |s|
    ensures s == s[..i] + "." + s[i + 1..]
    ensures '.' !in s[..i]
  {
    DotJoin(s, i);
    NoDotBefore(s, i);
  }

  lemma DotJoin(s: string, i: nat)
    requires i < |s| && s[i] == '.'
    ensures s == s[..i] + "." + s[i + 1..]
  {
    assert s == s[..i] + [s[i]] + s[i + 1..];
  }

  lemma NoDotBefore(s: string, i: nat)
    requires i == FirstIndex(s, '.')
    ensures '.' !in s[..i]
  {
    assert forall k :: 0 <= k < i ==> s[..i][k] == s[k];
  }

  /** The texts before the first '.', between the first two, and after
      the second, when s has two dots. */
  function SplitFields(s: string): (r: Option<(string, string, string)>)
    ensures r.Some? ==> s == r.value.0 + "." + r.value.1 + "." + r.value.2
    ensures r.Some? ==> '.' !in r.value.0 && '.' !in r.value.1
  {
    var i := FirstIndex(s, '.');
    if i == |s| then None
    else
      var rest := s[i + 1..];
      var j := FirstIndex(rest, '.');
      if j == |rest| then None
      else
        DotSplit(s, i);
        DotSplit(rest, j);
        Some((s[..i], rest[..j], rest[j + 1..]))
  }

  /** The date the three field values name, if the date constructor
      accepts it (it rejects year 0 and days the month does not have). */
  function MakeDate(day: Option<int>, month: Option<int>, year: Option<int>): (r: Option<Date>)
    ensures r.Some? ==> ValidDate(r.value)
    ensures r.Some? <==>
      (day.Some? && month.Some? && year.Some? && ValidDate(Date(year.value, month.value, day.value)))
    ensures r.Some? ==> r.value == Date(year.value, month.value, day.value)
  {
    if day.Some? && month.Some? && year.Some? && ValidDate(Date(year.value, month.value, day.value))
    then Some(Date(year.value, month.value, day.value))
    else None
  }

  /** datetime.strptime(s, "%d.%m.%Y").date(), None where it raises. No
      field can hold a '.', so the day is the text before the first '.', the
      month the text between the first two, and the year the rest (the
      whole string must be consumed). */
  function ParseDate(s: string): (r: Option<Date>)
    ensures r.Some? ==> ValidDate(r.value)
  {
    match SplitFields(s)
    case None => None
    case Some((dt, mt, yt)) => MakeDate(DayValue(dt), MonthValue(mt), YearValue(yt))
  }

  /** Birthday values: text that parses as a real date. */
  type Birthday = string

  /** Birthday(text): the text itself is stored when it parses. */
  function MakeBirthday(text: string): (r: Result<Birthday, Error>)
    ensures r.Success? <==> ParseDate(text).Some?
    ensures r.Success? ==> r.value == text
    ensures r.Failure? ==> r.error == InvalidDate && Message(r.error) == "Invalid date format. Use DD.MM.YYYY"
  {
    if ParseDate(text).Some? then Success(text) else Failure(InvalidDate)
  }

  // ------------------------------------------------ what strptime accepts

  /** The ways %d can spell day d: two digits, and from 1 to 9 also one
      digit or a space and one digit. */
  function DaySpellings(d: int): set<string>
    requires 1 <= d <= 31
  {
    {Pad(d, 2)} + (if d < 10 then {[DigitChar(d)], [' ', DigitChar(d)]} else {})
  }

  /** The ways %m can spell month m: two digits, and below 10 also one. */
  function MonthSpellings(m: int): set<string>
    requires 1 <= m <= 12
  {
    {Pad(m, 2)} + (if m < 10 then {[DigitChar(m)]} else {})
  }

  /** Every text that spells date d under "%d.%m.%Y". */
  function Spellings(d: Date): set<string>
    requires ValidDate(d)
  {
    set dt, mt | dt in DaySpellings(d.day) && mt in MonthSpellings(d.month) ::
      dt + "." + mt + "." + Pad(d.year, 4)
  }

  lemma FirstDot(a: string, b: string)
    requires '.' !in a
    ensures FirstIndex(a + "." + b, '.') == |a|
    ensures (a + "." + b)[..|a|] == a && (a + "." + b)[|a| + 1..] == b
  {
    var s := a + "." + b;
    assert s[|a|] == '.';
    assert forall j :: 0 <= j < |a| ==> s[j] == a[j];
  }

  lemma DaySpelled(t: string, d: int)
    requires 1 <= d <= 31
    ensures DayValue(t) == Some(d) <==> t in DaySpellings(d)
  {
    ValuePad(d, 2);
    if DayValue(t) == Some(d) {
      if |t| == 1 {
        DigitCharValue(t[0]);
        assert t == [DigitChar(d)];
      } else if t[0] == ' ' {
        DigitCharValue(t[1]);
        assert t == [' ', DigitChar(d)];
      } else {
        PadValue(t);
      }
    }
  }

  lemma MonthSpelled(t: string, m: int)
    requires 1 <= m <= 12
    ensures MonthValue(t) == Some(m) <==> t in MonthSpellings(m)
  {
    ValuePad(m, 2);
    if MonthValue(t) == Some(m) {
      if |t| == 1 {
        DigitCharValue(t[0]);
        assert t == [DigitChar(m)];
      } else {
        PadValue(t);
      }
    }
  }

  lemma YearSpelled(t: string, y: int)
    requires MinYear <= y <= MaxYear
    ensures YearValue(t) == Some(y) <==> t == Pad(y, 4)
  {
    ValuePad(y, 4);
    if YearValue(t) == Some(y) {
      PadValue(t);
    }
  }

  /** A text with two dots splits at them. */
  lemma SplitFieldsAt(a: string, b: string, c: string)
    requires '.' !in a && '.' !in b
    ensures SplitFields(a + "." + b + "." + c) == Some((a, b, c))
  {
    var rest := b + "." + c;
    FirstDot(a, rest);
    FirstDot(b, c);
    assert a + "." + b + "." + c == a + "." + rest;
  }

  lemma ParsedIsSpelling(s: string, d: Date)
    requires ValidDate(d) && ParseDate(s) == Some(d)
    ensures s in Spellings(d)
  {
    var (dt, mt, yt) := SplitFields(s).value;
    DaySpelled(dt, d.day);
    MonthSpelled(mt, d.month);
    YearSpelled(yt, d.year);
    assert dt in DaySpellings(d.day) && mt in MonthSpellings(d.month);
    assert s == dt + "." + mt + "." + Pad(d.year, 4);
  }

  lemma SpellingIsParsed(s: string, d: Date)
    requires ValidDate(d) && s in Spellings(d)
    ensures ParseDate(s) == Some(d)
  {
    var dt, mt :| dt in DaySpellings(d.day) && mt in MonthSpellings(d.month) &&
      s == dt + "." + mt + "." + Pad(d.year, 4);
    DaySpelled(dt, d.day);
    MonthSpelled(mt, d.month);
    YearSpelled(Pad(d.year, 4), d.year);
    assert '.' !in dt;
    assert '.' !in mt;
    SplitFieldsAt(dt, mt, Pad(d.year, 4));
  }

  /** Exactly which texts Birthday accepts as date d: one of d's spellings,
      nothing else. In particular every DD.MM.YYYY text of a real date is
      accepted and read back as that date, and so are the shorter forms
      such as "1.1.2020". */
  lemma ParseDateSpellings(s: string, d: Date)
    requires ValidDate(d)
    ensures ParseDate(s) == Some(d) <==> s in Spellings(d)
  {
    if ParseDate(s) == Some(d) {
      ParsedIsSpelling(s, d);
    }
    if s in Spellings(d) {
      SpellingIsParsed(s, d);
    }
  }

  // ------------------------------------------------------------- examples

  lemma Pad2020()
    ensures Pad(2020, 4) == "2020"
  {
    assert Pad(2, 1) == "2";
    assert Pad(20, 2) == "20";
    assert Pad(202, 3) == "202";
  }

  /** The short forms are accepted: "1.1.2020" and " 1.1.2020" are
      1 January 2020, as "01.01.2020" is. */
  lemma ShortFormsAccepted()
    ensures ParseDate("1.1.2020") == Some(Date(2020, 1, 1))
    ensures ParseDate(" 1.1.2020") == Some(Date(2020, 1, 1))
    ensures ParseDate("01.01.2020") == Some(Date(2020, 1, 1))
  {
    var d := Date(2020, 1, 1);
    Pad2020();
    assert Pad(1, 2) == "01";
    assert "1" in DaySpellings(1) && " 1" in DaySpellings(1) && "01" in DaySpellings(1);
    assert "1" in MonthSpellings(1) && "01" in MonthSpellings(1);
    assert "1.1.2020" == "1" + "." + "1" + "." + Pad(2020, 4);
    assert " 1.1.2020" == " 1" + "." + "1" + "." + Pad(2020, 4);
    assert "01.01.2020" == "01" + "." + "01" + "." + Pad(2020, 4);
    SpellingIsParsed("1.1.2020", d);
    SpellingIsParsed(" 1.1.2020", d);
    SpellingIsParsed("01.01.2020", d);
  }

  lemma FieldsOfFeb30()
    ensures DayValue("30") == Some(30) && MonthValue("02") == Some(2) && YearValue("2020") == Some(2020)
  {
    TwoDigitValues();
    YearValues();
  }

  lemma FieldsOfFeb29()
    ensures DayValue("29") == Some(29) && MonthValue("02") == Some(2) && YearValue("2021") == Some(2021)
  {
    TwoDigitValues();
    YearValues();
  }

  lemma TwoDigitValues()
    ensures Value("30") == 30 && Value("29") == 29 && Value("02") == 2
  {
    assert "30"[..1] == "3" && "29"[..1] == "2" && "02"[..1] == "0";
  }

  lemma YearValues()
    ensures Value("2020") == 2020 && Value("2021") == 2021
  {
    assert "2020"[..3] == "202" && "2021"[..3] == "202";
    assert "202"[..2] == "20" && "20"[..1] == "2";
  }

  lemma SplitOf(s: string, dt: string, mt: string, yt: string)
    requires |s| == 10 && s[2] == '.' && s[5] == '.'
    requires dt == s[..2] && mt == s[3..5] && yt == s[6..] && '.' !in dt && '.' !in mt
    ensures SplitFields(s) == Some((dt, mt, yt))
  {
    assert s == dt + "." + mt + "." + yt;
    SplitFieldsAt(dt, mt, yt);
  }

  /** 30 February is not a date. */
  lemma ThirtiethOfFebruaryRejected()
    ensures ParseDate("30.02.2020") == None
  {
    SplitOf("30.02.2020", "30", "02", "2020");
    FieldsOfFeb30();
  }

  /** 29 February of a common year is not a date. */
  lemma LeapDayOfCommonYearRejected()
    ensures ParseDate("29.02.2021") == None
  {
    SplitOf("29.02.2021", "29", "02", "2021");
    FieldsOfFeb29();
  }
}
