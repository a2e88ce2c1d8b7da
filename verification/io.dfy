/** Values shared by both platform variants of fixr: the error type of Rust's
    `io::Result`, the captured output of a child process, the command line
    handed to the operating system, and the observable side effects a
    repair run has on the host. */
module Io {

  datatype Option<+T> = None | Some(value: T)

  datatype Result<+T, +E> = Ok(value: T) | Err(error: E)

  /** The `io::ErrorKind` variants fixr produces. */
  datatype ErrorKind = InvalidInput | NotFound | Other

  /** `io::Error::new(kind, message)`. */
  datatype IoError = IoError(kind: ErrorKind, message: string)

  /** What `Command::output` captures: whether the exit status is success,
      and standard output and standard error, treated as opaque text. */
  datatype ProcessOutput = ProcessOutput(success: bool, stdout: string, stderr: string)

  /** A program name with its argument list, as a `Command` holds them. */
  datatype CommandLine = CommandLine(program: string, args: seq<string>)

  /** A side effect on the host: an unmount attempt of a path, or the
      spawning of an external program. */
  datatype Effect = Unmount(path: string) | Spawn(line: CommandLine)

  /** The two byte counts `show_drive_info` hands to the display routine:
      total space and free (available) space. */
  datatype Usage = Usage(totalSpace: nat, freeSpace: nat)
}
