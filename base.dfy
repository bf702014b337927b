/** Failure values standing in for the exceptions the contact book raises. */
module Base {

  /** The exceptions the core can raise, by cause. */
  datatype Error =
    | PhoneFormat     // ValueError from Phone.validate: not exactly ten digits
    | BirthdayFormat  // ValueError re-raised by Birthday: not a DD.MM.YYYY date
    | BadReplace      // ValueError from datetime.replace: day past the month's end, or year outside 1..9999
    | Overflow        // OverflowError from date + timedelta: result outside 0001-01-01..9999-12-31
    | Uncomparable    // TypeError: a datetime ordered against a date

  datatype Option<+T> = None | Some(value: T)

  datatype Result<+T> = Ok(value: T) | Err(error: Error)

  /** The outcome of an operation that returns nothing on success. */
  datatype Outcome = Pass | Fail(error: Error)
}
