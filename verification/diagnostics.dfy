/**
 * The records the scripts hand to the shared error-reporting helper (handle-error.js, which
 * is not part of this model): it turns them into MSBuild-style warnings and errors.
 */
module Diagnostics {
  import opened Wrappers

  /** An argument of `handleErrorObject`. */
  datatype ErrorObject = ErrorObject(code: Option<string>, path: string, message: string)

  /** An argument of `handleWarningObject`. */
  datatype WarningObject = WarningObject(
    message: string,
    code: string,
    path: string,
    line: Option<int>,
    column: Option<int>)
}
