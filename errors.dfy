/** The error kinds of crates/smallauncher_lib/src/error.rs, without the foreign payloads they wrap,
    and the three ways an operation of the launcher can end. */
module Errors {

  datatype Error =
    | VersionNotFound
    | JavaVersionNotSupported
    | Serialize   // a JSON value that does not have the expected shape
    | Io          // a filesystem failure
    | Network     // a transport or HTTP failure
    | OsString
    | Zip         // an archive that cannot be read
    | ParseUrl

  /** How a top-level operation ended: normally, with an `Err` returned through `?`,
      or with a panic (a string slice out of range). */
  datatype Status = Done | Failed(error: Error) | Panicked
}
