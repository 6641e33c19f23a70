/** The exceptions the contact book raises, with the exception class and
    the message text each carries. */
module Errors {

  datatype Error =
    | InvalidPhone      // Phone.__init__
    | InvalidDate       // Birthday.__init__ (strptime failed)
    | PhoneNotFound     // Record.remove_phone, Record.edit_phone
    | ContactNotFound   // AddressBook.delete
    | DayOutOfRange     // date.replace: day does not exist in the target year
    | YearOutOfRange    // date.replace: target year above 9999

  function Message(e: Error): string {
    match e
    case InvalidPhone => "Phone number must be a 10-digit number"
    case InvalidDate => "Invalid date format. Use DD.MM.YYYY"
    case PhoneNotFound => "Phone number not found"
    case ContactNotFound => "Contact not found"
    case DayOutOfRange => "day is out of range for month"
    case YearOutOfRange => "year 10000 is out of range"
  }
}
