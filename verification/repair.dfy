/** The platform-independent half of the repair invoker: the process
    builder that `fix_drive` fills in argument by argument, and
    `execute_repair_command`, which runs the built command and maps its
    exit status to a result. */
module Repair {
  import opened Io
  import Text

  /** Message prefix of the error returned when the repair tool exits
      with a failure status. */
  const FailurePrefix: string := "Disk onarımı başarısız oldu: "

  /** `std::process::Command`: a program name and an argument list that
      grows with every call to `Arg`. */
  class Command {
    var program: string
    var args: seq<string>

    constructor (program: string)
      ensures this.program == program && args == []
    {
      this.program := program;
      args := [];
    }

    /** `Command::arg`: appends one argument. */
    method Arg(a: string)
      modifies this
      ensures program == old(program) && args == old(args) + [a]
    {
      args := args + [a];
    }

    /** The command line the operating system is asked to run. */
    function Line(): CommandLine
      reads this
    {
      CommandLine(program, args)
    }
  }

  /** `execute_repair_command`, given what `Command::output` returned for
      the built command. A failure to spawn is passed on; a success exit
      status yields the tool's standard output (the text shown to the
      user); any other status yields an `Other` error whose message is the
      failure prefix followed by the tool's standard error, verbatim. */
  function ExecuteRepairCommand(spawned: Result<ProcessOutput, IoError>): (r: Result<string, IoError>)
    ensures r.Ok? <==> spawned.Ok? && spawned.value.success
    ensures r.Ok? ==> r.value == spawned.value.stdout
    ensures spawned.Err? ==> r == Err(spawned.error)
    ensures spawned.Ok? && !spawned.value.success ==>
              r.Err? && r.error.kind == Other && Text.StartsWith(r.error.message, FailurePrefix) &&
              r.error.message[|FailurePrefix|..] == spawned.value.stderr
  {
    match spawned
    case Err(e) => Err(e)
    case Ok(output) =>
      if output.success then Ok(output.stdout)
      else Err(IoError(Other, FailurePrefix + output.stderr))
  }

  /** Two failed runs report the same error only if their standard error
      texts are identical: the message loses nothing of what the tool
      wrote. */
  lemma FailureMessageInjective(a: ProcessOutput, b: ProcessOutput)
    requires !a.success && !b.success
    requires ExecuteRepairCommand(Ok(a)) == ExecuteRepairCommand(Ok(b))
    ensures a.stderr == b.stderr
  {
    var m := ExecuteRepairCommand(Ok(a)).error.message;
    assert a.stderr == m[|FailurePrefix|..] == b.stderr;
  }
}
