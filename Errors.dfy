/** The exceptions of the address book (tasks/address_book/error/exceptions.py), the
    IndexError the command handlers raise for missing arguments, and a result type that
    replaces raising them. */
module Errors {

  datatype Error =
    | ContactNotFound
    | ContactAlreadyExist
    | ContactNameMandatory
    | ContactPhoneNotFound
    | ContactPhoneAlreadyExist
    | ContactPhoneValueError
    | ContactEmailNotFound
    | ContactEmailAlreadyExist
    | ContactEmailValueError
    | ContactBirthdayAlreadyExist
    | ContactBirthdayValueError
    | DataFileNotFound(filename: string)
    | DataFileWrongFormat(filename: string)
      /** `IndexError("Invalid command arguments")`, raised by the handlers of the bot. */
    | InvalidArguments

  /** The built-in exception class each error descends from, as far as the bot's
      `input_error` wrapper tells them apart. */
  datatype Kind = IndexKind | KeyKind | ValueKind | OtherKind

  /** The `*NotFound` and `*AlreadyExist` classes derive from KeyError, the `*ValueError`
      classes and `ContactNameMandatory` from ValueError; the data-file errors are
      FileNotFoundError and FileExistsError, which are neither. */
  function KindOf(e: Error): Kind {
    match e
    case InvalidArguments => IndexKind
    case ContactNotFound | ContactAlreadyExist
       | ContactPhoneNotFound | ContactPhoneAlreadyExist
       | ContactEmailNotFound | ContactEmailAlreadyExist
       | ContactBirthdayAlreadyExist => KeyKind
    case ContactNameMandatory | ContactPhoneValueError
       | ContactEmailValueError | ContactBirthdayValueError => ValueKind
    case DataFileNotFound(_) | DataFileWrongFormat(_) => OtherKind
  }

  /** The first argument each exception is constructed with (`e.args[0]`). */
  function Message(e: Error): string {
    match e
    case ContactNotFound => "The contact not found"
    case ContactAlreadyExist => "The contact already exists"
    case ContactNameMandatory => "The contact name is required"
    case ContactPhoneNotFound => "The contact phone number not found"
    case ContactPhoneAlreadyExist => "The contact phone number already exists"
    case ContactPhoneValueError =>
      "The contact phone number must consist of exactly ten digits "
      + "and must not contain any letters or other characters, "
      + "except for phone number formatting symbols"
    case ContactEmailNotFound => "The contact email not found"
    case ContactEmailAlreadyExist => "The contact email already exists"
    case ContactEmailValueError => "The contact email must be a valid email address"
    case ContactBirthdayAlreadyExist => "The contact birthday already exists"
    case ContactBirthdayValueError => "The contact birthday must be in \"DD.MM.YYYY\" format"
    case DataFileNotFound(f) => "The address book data file \"" + f + "\" not found"
    case DataFileWrongFormat(f) => "The address book data file \"" + f + "\" not a file or corrupted"
    case InvalidArguments => "Invalid command arguments"
  }

  /** The outcome of an operation that either returns a value or raises one of the errors. */
  datatype Result<+T> = Success(value: T) | Failure(error: Error)
}
