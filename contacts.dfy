/** The contact book's mutable objects: a Record holds a name, an ordered
    list of Phone objects and an optional birthday; an AddressBook is a
    dictionary from name to Record, iterated in insertion order. */
module Contacts {
  import opened Wrappers
  import opened Errors
  import opened Sequences
  import opened Calendar
  import opened Fields
  import opened Birthdays

  class Record {
    const name: string
    var phones: seq<Phone>
    var birthday: Option<string>

    /** Every phone object is listed once (add_phone makes a new one each
        time), and a birthday is text strptime accepts. */
    ghost predicate Valid()
      reads this
    {
      Distinct(phones) && (birthday.Some? ==> ParseDate(birthday.value).Some?)
    }

    /** The phone numbers, in list order. */
    function Numbers(): seq<string>
      reads this, phones
    {
      seq(|phones|, i requires 0 <= i < |phones| reads this, phones => phones[i].value)
    }

    constructor (name: string)
      ensures this.name == name && phones == [] && birthday == None
      ensures Valid()
    {
      this.name := name;
      phones := [];
      birthday := None;
    }

    /** add_phone: a valid number is appended as a new phone object; an
        invalid one raises and changes nothing. */
    method AddPhone(phone: string) returns (r: Outcome<Error>)
      requires Valid()
      modifies this`phones
      ensures Valid()
      ensures r == CheckPhone(phone)
      ensures r.Pass? ==> |phones| == |old(phones)| + 1 && phones[..|old(phones)|] == old(phones)
      ensures r.Pass? ==> fresh(phones[|old(phones)|])
      ensures r.Pass? ==> Numbers() == old(Numbers()) + [phone]
      ensures r.Fail? ==> phones == old(phones)
    {
      var created := Phone.Create(phone);
      if created.Failure? {
        return Fail(created.error);
      }
      var p := created.value;
      assert forall i :: 0 <= i < |phones| ==> phones[i] != p;
      phones := phones + [p];
      r := Pass;
    }

    /** add_birthday: valid text replaces any earlier birthday; invalid
        text raises and changes nothing. */
    method AddBirthday(text: string) returns (r: Outcome<Error>)
      requires Valid()
      modifies this`birthday
      ensures Valid()
      ensures r.Pass? <==> ParseDate(text).Some?
      ensures r.Pass? ==> birthday == Some(text)
      ensures r.Fail? ==> r.error == InvalidDate && birthday == old(birthday)
    {
      var made := MakeBirthday(text);
      if made.Failure? {
        return Fail(made.error);
      }
      birthday := Some(made.value);
      r := Pass;
    }

    /** find_phone: the first phone object whose number matches, or null. */
    method FindPhone(number: string) returns (p: Phone?)
      ensures number in Numbers() ==> p == phones[FirstIndex(Numbers(), number)]
      ensures number !in Numbers() ==> p == null
    {
      var i := 0;
      while i < |phones|
        invariant 0 <= i <= |phones|
        invariant forall j :: 0 <= j < i ==> Numbers()[j] != number
      {
        if phones[i].value == number {
          assert Numbers()[i] == number;
          return phones[i];
        }
        i := i + 1;
      }
      return null;
    }

    /** remove_phone: the first phone with the number is taken out, the
        others keep their order; with no match it raises. */
    method RemovePhone(number: string) returns (r: Outcome<Error>)
      requires Valid()
      modifies this`phones
      ensures Valid()
      ensures r.Pass? <==> number in old(Numbers())
      ensures Numbers() == RemoveFirst(old(Numbers()), number)
      ensures r.Pass? ==>
        var k := FirstIndex(old(Numbers()), number);
        phones == old(phones)[..k] + old(phones)[k + 1..]
      ensures r.Fail? ==> r.error == PhoneNotFound && phones == old(phones)
    {
      var i := 0;
      while i < |phones| && phones[i].value != number
        invariant 0 <= i <= |phones|
        invariant forall j :: 0 <= j < i ==> Numbers()[j] != number
      {
        i := i + 1;
      }
      if i == |phones| {
        RemoveFirstSplit(Numbers(), number);
        return Fail(PhoneNotFound);
      }
      assert Numbers()[i] == number;
      assert FirstIndex(Numbers(), number) == i;
      RemoveFirstSplit(Numbers(), number);
      CutPhone(i);
      r := Pass;
    }

    /** Take the phone at index i out of the list, keeping the others in
        order. */
    method CutPhone(i: nat)
      requires Valid() && i < |phones|
      modifies this`phones
      ensures Valid()
      ensures phones == old(phones)[..i] + old(phones)[i + 1..]
      ensures Numbers() == old(Numbers())[..i] + old(Numbers())[i + 1..]
    {
      ghost var before := Numbers();
      RemoveFirstDistinct(phones, phones[i]);
      RemoveFirstAt(phones, phones[i], i);
      phones := phones[..i] + phones[i + 1..];
      assert forall j :: 0 <= j < |phones| ==> Numbers()[j] == before[if j < i then j else j + 1];
    }

    /** edit_phone: the first phone object with the old number gets the new
        number in place, without validating it; with no match it raises. */
    method EditPhone(oldNumber: string, newNumber: string) returns (r: Outcome<Error>)
      requires Valid()
      modifies phones
      ensures Valid() && phones == old(phones)
      ensures r.Pass? <==> oldNumber in old(Numbers())
      ensures r.Pass? ==> Numbers() == old(Numbers())[FirstIndex(old(Numbers()), oldNumber) := newNumber]
      ensures r.Fail? ==> r.error == PhoneNotFound && Numbers() == old(Numbers())
    {
      var p := FindPhone(oldNumber);
      if p != null {
        p.value := newNumber;
        r := Pass;
      } else {
        r := Fail(PhoneNotFound);
      }
    }
  }

  class AddressBook {
    var data: map<string, Record>
    /** The dictionary's keys in insertion order. */
    var keys: seq<string>

    /** Every record is filed under its own name, and the key order lists
        each key once. */
    ghost predicate Valid()
      reads this, data.Values
    {
      && (forall k :: k in data ==> data[k].name == k && data[k].Valid())
      && Distinct(keys)
      && (forall k :: k in keys <==> k in data)
    }

    constructor ()
      ensures Valid() && data == map[] && keys == []
    {
      data := map[];
      keys := [];
    }

    /** find: the record under that name, or null. */
    function Find(name: string): (r: Record?)
      requires Valid()
      reads this, data.Values
      ensures r != null <==> name in data
      ensures r != null ==> r == data[name] && r.name == name
    {
      if name in data then data[name] else null
    }

    /** add_record: file the record under its name, replacing any record
        already there; a new name goes to the end of the key order. */
    method AddRecord(record: Record)
      requires Valid() && record.Valid()
      modifies this
      ensures Valid()
      ensures data == old(data)[record.name := record]
      ensures keys == if record.name in old(data) then old(keys) else old(keys) + [record.name]
      ensures Find(record.name) == record
    {
      if record.name !in data {
        keys := keys + [record.name];
      }
      data := data[record.name := record];
    }

    /** delete: remove the name's record; an absent name raises KeyError. */
    method Delete(name: string) returns (r: Outcome<Error>)
      requires Valid()
      modifies this
      ensures Valid()
      ensures r.Pass? <==> name in old(data)
      ensures r.Pass? ==> data == old(data) - {name} && keys == RemoveFirst(old(keys), name)
      ensures r.Fail? ==> r.error == ContactNotFound && data == old(data) && keys == old(keys)
      ensures Find(name) == null
    {
      if name in data {
        RemoveFirstDistinct(keys, name);
        data := data - {name};
        keys := RemoveFirst(keys, name);
        r := Pass;
      } else {
        r := Fail(ContactNotFound);
      }
    }

    /** The name and birthday of each record, in key order. */
    function EntriesOf(ks: seq<string>): (es: seq<Entry>)
      requires forall k :: k in ks ==> k in data
      reads this, data.Values
      ensures |es| == |ks|
      ensures forall i :: 0 <= i < |ks| ==> es[i] == Entry(data[ks[i]].name, data[ks[i]].birthday)
    {
      if ks == [] then []
      else
        var last := data[ks[|ks| - 1]];
        EntriesOf(ks[..|ks| - 1]) + [Entry(last.name, last.birthday)]
    }

    function Entries(): seq<Entry>
      requires Valid()
      reads this, data.Values
    {
      EntriesOf(keys)
    }

    /** One pass of the loop in get_upcoming_birthdays: move the
        birthday into today's year, or the next one when it has passed, and
        report it when it is at most a week away. */
    static method CheckRecord(today: Date, record: Record) returns (r: Result<Option<Congratulation>, Error>)
      requires ValidDate(today) && record.Valid()
      ensures r == CheckEntry(today, Entry(record.name, record.birthday))
    {
      if record.birthday.None? {
        return Success(None);
      }
      var birthdayDate := ParseDate(record.birthday.value).value;
      CheckEntryByOccurrence(today, Entry(record.name, record.birthday), birthdayDate);
      var thisYear := Replace(birthdayDate, today.year);
      if thisYear.Failure? {
        return Failure(thisYear.error);
      }
      var birthdayThisYear := thisYear.value;
      if Before(birthdayThisYear, today) {
        var nextYear := Replace(birthdayThisYear, today.year + 1);
        if nextYear.Failure? {
          return Failure(nextYear.error);
        }
        birthdayThisYear := nextYear.value;
      }
      var daysUntilBirthday := Ordinal(birthdayThisYear) - Ordinal(today);
      if 0 <= daysUntilBirthday <= WindowDays {
        return Success(Some(Congratulation(record.name, FormatIso(birthdayThisYear))));
      }
      return Success(None);
    }

    /** get_upcoming_birthdays, with today passed in: the congratulations
        for the records in key order, or the error of the first record whose
        birthday cannot be moved into the needed year. */
    method GetUpcomingBirthdays(today: Date) returns (r: Result<seq<Congratulation>, Error>)
      requires Valid() && ValidDate(today)
      ensures r == Upcoming(today, Entries())
    {
      ghost var os := Outcomes(today, Entries());
      var upcoming: seq<Congratulation> := [];
      var i := 0;
      while i < |keys|
        invariant 0 <= i <= |keys|
        invariant Collect(os[..i]) == Success(upcoming)
      {
        var record := data[keys[i]];
        var outcome := CheckRecord(today, record);
        assert os[i] == outcome;
        CollectSnoc(os, i, upcoming);
        match outcome {
          case Failure(err) =>
            CollectPrefixFailure(os, i + 1);
            return Failure(err);
          case Success(None) =>
          case Success(Some(c)) =>
            upcoming := upcoming + [c];
        }
        i := i + 1;
      }
      assert os[..i] == os;
      return Success(upcoming);
    }

    /** add_contact: find or create the record, then add the phone. A new
        name is filed, empty, before the phone is checked, so an invalid
        phone for a new name still leaves an empty record behind. */
    method AddContact(name: string, phone: string) returns (r: Outcome<Error>)
      requires Valid()
      modifies this, if name in data then {data[name]} else {}
      ensures Valid() && name in data
      ensures r == CheckPhone(phone)
      ensures old(name in data) ==> data == old(data) && keys == old(keys)
      ensures !old(name in data) ==>
        && fresh(data[name]) && data == old(data)[name := data[name]]
        && keys == old(keys) + [name] && data[name].birthday == None
      ensures data[name].Numbers() ==
        (if old(name in data) then old(data[name].Numbers()) else []) + (if r.Pass? then [phone] else [])
      ensures old(name in data) ==>
        && data[name].birthday == old(data[name].birthday)
        && data[name].phones[..|old(data[name].phones)|] == old(data[name].phones)
      ensures forall k :: k in old(data) && k != name ==>
        data[k].Numbers() == old(data[k].Numbers()) && data[k].birthday == old(data[k].birthday)
    {
      var record := Find(name);
      if record == null {
        record := new Record(name);
        AddRecord(record);
      }
      r := record.AddPhone(phone);
    }
  }
}
