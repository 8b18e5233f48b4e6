/** Option and Result for the not-found and error paths of the suite. */
module Wrappers {

  datatype Option<+T> = None | Some(value: T) {
    function GetOr(default: T): T {
      match this
      case Some(v) => v
      case None => default
    }
  }

  /** The exceptions the modelled operations raise, by kind. */
  datatype Error =
    | UnsupportedFormat          // ValueError("Unsupported format") from export
    | MissingField               // KeyError while exporting a note that lacks a field
    | InvalidSeconds             // ValueError("Invalid seconds") from countdown
    | NotADirectory              // ValueError("Target directory does not exist") from organize
    | BadArchive                 // zipfile cannot open an existing backup entry

  datatype Result<+T> = Ok(value: T) | Err(error: Error)
}
