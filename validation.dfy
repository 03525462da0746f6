/** The input checks that run before any external tool is started. */
module Validation {
  import opened Wrappers

  datatype ValidationError =
    | PasswordNotProvided   // a user name without a password
    | UserNameNotProvided   // a password without a user name
    | WorkdirNotFound       // the working directory does not exist
    | WorkdirNotChecked     // the existence check itself failed

  /** What the file system answers when asked whether a path exists. */
  datatype PathStat = PathExists | PathMissing | StatFailed

  /**
   * The account credentials must be given together or not at all; the
   * result is the error, or None when the pair is acceptable.
   */
  function ValidateCredentials(userName: string, password: string): (err: Option<ValidationError>)
    ensures err.Some? <==> (userName == "") != (password == "")
    ensures err == Some(PasswordNotProvided) <==> userName != "" && password == ""
    ensures err == Some(UserNameNotProvided) <==> userName == "" && password != ""
  {
    if userName != "" && password == "" then Some(PasswordNotProvided)
    else if userName == "" && password != "" then Some(UserNameNotProvided)
    else None
  }

  /**
   * An empty working directory means the current one and is always accepted;
   * otherwise `stat` is the answer of the existence check, consulted only then.
   */
  function ValidateWorkdir(dir: string, stat: PathStat): (err: Option<ValidationError>)
    ensures dir == "" ==> err.None?
    ensures dir != "" ==> (err.None? <==> stat == PathExists)
    ensures dir != "" && stat == StatFailed ==> err == Some(WorkdirNotChecked)
    ensures dir != "" && stat == PathMissing ==> err == Some(WorkdirNotFound)
  {
    if dir == "" then None
    else match stat
      case StatFailed => Some(WorkdirNotChecked)
      case PathMissing => Some(WorkdirNotFound)
      case PathExists => None
  }
}
