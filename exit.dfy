/** The run's exit status (src/exit_status.rs) and the error tags that feed it
    (src/filesystem/error.rs). Error messages are not modelled: every error maps to
    a status by the `cli_arg` flag alone, so an error is a bare tag here. */
module Exit {
  import opened Base

  datatype Error =
    | PathInvalidUtf8
    | FileInvalidUtf8
    | CannotOpenDirectory
    | CannotReadFileInDirectory
    | CannotAccessFile
    | CannotReadSymbolicLink
    | CannotDetermineDevIno
    | DirectoryAlreadyListed
    | Io

  datatype ExitStatus = ExitSuccess | LrsMinorProblem | LrsFailure {

    /** `exit_status as u8`, the process exit code. */
    function Code(): (c: nat)
      ensures c <= 2
      ensures c == 0 <==> this == ExitSuccess
    {
      match this
      case ExitSuccess => 0
      case LrsMinorProblem => 1
      case LrsFailure => 2
    }

    /** `ExitStatus::update`: raise to the status the error maps to, never lower. */
    function Update(error: Error, cliArg: bool): (r: ExitStatus)
      ensures r.Code() >= Code()
      ensures r.Code() >= IntoExitStatus(error, cliArg).Code()
      ensures r == this || r == IntoExitStatus(error, cliArg)
    {
      var newStatus := IntoExitStatus(error, cliArg);
      if Code() < newStatus.Code() then newStatus else this
    }
  }

  /** `ExitStatus::default()`. */
  function DefaultStatus(): (s: ExitStatus)
    ensures s.Code() == 0
  {
    ExitSuccess
  }

  /** `impl From<bool> for ExitStatus`, as written: `true` gives the minor problem. */
  function FromBool(serious: bool): (s: ExitStatus)
    ensures s.Code() == if serious then 1 else 2
  {
    if serious then LrsMinorProblem else LrsFailure
  }

  /** `into_exit_status`: the status an error raises to, looking only at `cli_arg`. */
  function IntoExitStatus(error: Error, cliArg: bool): (s: ExitStatus)
    ensures s != ExitSuccess
    ensures s.Code() == if cliArg then 1 else 2
  {
    FromBool(cliArg)
  }

  /** The status never depends on which error occurred. */
  lemma StatusIgnoresErrorKind(e1: Error, e2: Error, cliArg: bool)
    ensures IntoExitStatus(e1, cliArg) == IntoExitStatus(e2, cliArg)
  {
  }

  /** Distinct statuses have distinct exit codes, so comparing codes is comparing statuses. */
  lemma CodeInjective(a: ExitStatus, b: ExitStatus)
    ensures a.Code() == b.Code() ==> a == b
  {
  }

  /** Updating twice with the same error changes nothing the second time. */
  lemma UpdateIdempotent(s: ExitStatus, e: Error, cliArg: bool)
    ensures s.Update(e, cliArg).Update(e, cliArg) == s.Update(e, cliArg)
  {
  }

  /** The order in which two errors are reported does not change the final status:
      it is the maximum of the start and both errors' statuses. */
  lemma UpdateCommutes(s: ExitStatus, e1: Error, c1: bool, e2: Error, c2: bool)
    ensures s.Update(e1, c1).Update(e2, c2) == s.Update(e2, c2).Update(e1, c1)
    ensures s.Update(e1, c1).Update(e2, c2).Code()
         == Max(Max(s.Code(), IntoExitStatus(e1, c1).Code()), IntoExitStatus(e2, c2).Code())
  {
    var a := s.Update(e1, c1).Update(e2, c2);
    var b := s.Update(e2, c2).Update(e1, c1);
    CodeInjective(a, b);
  }

  /** The status after reporting each of `errors` in turn for one name. */
  function UpdateAll(s: ExitStatus, errors: seq<Error>, cliArg: bool): (r: ExitStatus)
    ensures errors == [] ==> r == s
    ensures |errors| == 1 ==> r == s.Update(errors[0], cliArg)
    ensures errors != [] ==> r.Code() == Max(s.Code(), if cliArg then 1 else 2)
    decreases |errors|
  {
    if errors == [] then s else UpdateAll(s.Update(errors[0], cliArg), errors[1..], cliArg)
  }
}
