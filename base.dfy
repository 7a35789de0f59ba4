/** Option and Result values, and the errors the list store reports.
    The C++ code reports errors by throwing std::runtime_error; here each
    thrown error is a value of `Error`, and `Message` gives the text that
    `what()` returns for it. */
module Base {

  datatype Option<+T> = None | Some(value: T)

  datatype Error =
    | BadFile(path: string)         // the list file cannot be opened
    | DuplicateId                   // list_open on an id that is already registered
    | NoSuchId                      // lookup or reload of an unregistered id
    | BadAddress(address: string)   // lookup of a string the address codec rejects
  {
    /** The text of the runtime_error thrown for this error. */
    function Message(): (m: string)
      ensures |m| > 0
    {
      match this
      case BadFile(path) => "Bad ip-list file: " + path
      case DuplicateId => "Duplicate ip-list id"
      case NoSuchId => "No such ip-list id"
      case BadAddress(address) => "Bad address format: " + address
    }
  }

  datatype Result<+R> = Success(value: R) | Failure(error: Error)

  /** The outcome of an operation that returns nothing but may throw. */
  datatype Outcome = Pass | Fail(error: Error)
}
