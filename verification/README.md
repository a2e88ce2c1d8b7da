# fixr device gateway — a Dafny model

fixr is a command-line tool that lists removable storage devices and runs
the platform's file-system checker (`chkdsk` on Windows, `fsck` on Unix)
against one of them. This project models the part of `src/main.rs` that
decides which devices are involved and which command gets built:

- how a device argument is validated,
- how a device is classified as removable (the fail-safe classifier),
- how removable drive letters are enumerated from the logical-drive bit mask,
- how `fix` builds its repair command behind the removability gate,
- how the repair tool's exit status becomes a result,
- and how the Unix `info` command looks up a disk.

The Windows and Unix variants are two modules, `Windows` and `Unix`.
`Io` holds the shared types, `Text` the string operations (`starts_with`,
`trim`), and `Repair` the process builder and `execute_repair_command`.

Every operating-system call becomes a parameter:

- the drive-type code for a root path (`GetDriveTypeW`), a function `string -> u32`;
- the logical-drive mask (`GetLogicalDrives`), a `bv32`;
- path existence (`Path::exists`);
- file contents (`fs::read_to_string`, `None` on failure);
- the unmount outcome (`mount::umount`);
- the outcome of flushing standard output;
- the captured output of the child process (`Command::output`);
- the disk table (`sysinfo`).

`fix_drive` returns its result together with the ordered list of side
effects it has on the host (an unmount attempt, a spawned command line).
The safety gate is then a plain statement: when the classifier rejects the
device, that list is empty.

Some details of the code that the model keeps:

- Windows `validate_drive` accepts lower-case letters and upper-cases them. It also accepts the dotless i (U+0131) and the long s (U+017F), which `to_uppercase` turns into 'I' and 'S'.
- Unix `is_removable` reads `/sys/block/<file name>/removable` for the file name of whatever path it gets, partitions included.

## Model

| member | source | states |
|---|---|---|
| `Windows.ValidateDrive` | src/main.rs:80-88 | accepts exactly the two-character inputs whose second character is ':' and whose first upper-cases to an ASCII capital; the result is the upper-cased canonical "X:" form, so "ı:" gives "I:" and "ſ:" gives "S:"; every other input gives the fixed format error |
| `Windows.ValidateDriveName` | src/main.rs:81-88 | every canonical "X:" identifier validates to itself |
| `Windows.ValidateDriveIdempotent` | src/main.rs:81-88 | re-validating a validated identifier returns the same result |
| `Windows.ClassifierFailSafe` | src/main.rs:315-323 | the failure codes 0 (unknown) and 1 (no root directory) and the fixed, remote, CD-ROM and RAM-disk codes 3 to 6 all classify the drive as not removable; only DRIVE_REMOVABLE (2) is accepted |
| `Windows.ClassifierReadsRootOnly` | src/main.rs:315-323 | the classification depends only on the code reported for the root path `drive + "\"`: two drive-type services that agree there classify the drive alike |
| `Windows.DriveName` | src/main.rs:304-306 | the identifier built for bit i is the canonical "X:" form whose letter is 'A' + i |
| `Windows.RemovableDrivesBelowSound` | src/main.rs:304-312 | every listed identifier belongs to a set bit below the bound that the classifier accepts; the listing is strictly ascending by letter (so has no duplicates) and holds at most one entry per bit |
| `Windows.RemovableDrivesBelowComplete` | src/main.rs:304-312 | drive i is listed if and only if bit i is set and the classifier accepts "X:" for it |
| `Windows.HighBitsIgnored` | src/main.rs:304-305 | bits 26 to 31 of the mask never change the listing |
| `Windows.ListedDrivesAreRepairable` | src/main.rs:304-312 | every listed drive passes argument validation unchanged and passes the removability gate of fix |
| `Windows.GetRemovableDrives` | src/main.rs:292-313 | a zero mask is an Other error; otherwise the result lists exactly the set bits 0..25 the classifier accepts, in strictly ascending order, at most 26 of them |
| `Windows.FixDrive` | src/main.rs:171-193 | a rejected drive gives InvalidInput and no effect at all; a flush failure is passed on before any command is spawned; otherwise exactly one command is spawned, `chkdsk [disk, "/F", "/X"]` when forced and `chkdsk [disk, "/F"]` otherwise, and its outcome is the result |
| `Windows.ShowDriveInfo` | src/main.rs:243-254 | succeeds exactly when the classifier accepts the drive, then reports the sizes get_drive_info gives; otherwise InvalidInput |
| `Repair.Command.constructor` | src/main.rs:183 | a new command has the given program and no arguments |
| `Repair.Command.Arg` | src/main.rs:184-189 | appending an argument extends the argument list by exactly that argument and keeps the program |
| `Repair.ExecuteRepairCommand` | src/main.rs:222-241 | a spawn failure is passed on; the result is Ok exactly when the exit status is success, carrying standard output; a failure status gives an Other error whose message is the fixed prefix followed by the verbatim standard error |
| `Repair.FailureMessageInjective` | src/main.rs:232-239 | two failed runs with the same error had the same standard error text |
| `Text.TrimStart` | src/main.rs:334 | the result is a suffix of the input, everything removed is whitespace, and the result does not start with whitespace |
| `Text.TrimEnd` | src/main.rs:334 | the result is a prefix of the input, everything removed is whitespace, and the result does not end with whitespace |
| `Text.TrimIsOne` | src/main.rs:334 | the trimmed content equals "1" if and only if the content is a single '1' surrounded by whitespace only |
| `Unix.ValidateDrive` | src/main.rs:90-98 | accepts exactly the existing paths that begin with "/dev/" and returns them unchanged; every other input gives the fixed path error |
| `Unix.ValidateDriveIdempotent` | src/main.rs:91-98 | re-validating a validated path returns the same result |
| `Unix.FileName` | src/main.rs:327-328 | a file name, when there is one, is a normal component: non-empty, no '/', neither "." nor ".." |
| `Unix.FileNameOfChild` | src/main.rs:327-328 | the file name of `dir/name` is `name` for every directory part |
| `Unix.FileNameOfBareName` | src/main.rs:327-328 | a path that is a single normal component, such as "sdb", is its own file name |
| `Unix.FileNameOfParentComponent` | src/main.rs:327-328 | a path ending in a ".." component has no file name |
| `Unix.FileNameIgnoresTrailing` | src/main.rs:327-328 | a trailing "/" or "/." does not change the file name |
| `Unix.IsRemovableExactly` | src/main.rs:325-338 | true if and only if the path has a file name starting with "sd" and reading "/sys/block/<file name>/removable" succeeds with a single '1' padded by whitespace; a missing file name, a missing prefix, a failed read or any other content gives false |
| `Unix.UnmountDrive` | src/main.rs:340-346 | succeeds exactly when the unmount succeeds; a failure becomes an Other error carrying the system's error text |
| `Unix.RepairDevice` | src/main.rs:204-219 | a forced run records an unmount attempt whose outcome never affects the result; a flush failure is passed on before anything is spawned; otherwise `fsck ["-y", disk, "-f"]` (forced) or `fsck ["-y", disk]` is spawned once and its outcome is the result |
| `Unix.FixDrive` | src/main.rs:195-220 | a rejected device gives InvalidInput and no effect at all; otherwise a forced repair first attempts an unmount whose outcome never affects the result, a flush failure is passed on, and then `fsck ["-y", disk, "-f"]` (forced) or `fsck ["-y", disk]` is spawned once and its outcome is the result |
| `Unix.FindDisk` | src/main.rs:261-262 | finds nothing exactly when no disk's name text equals the argument; otherwise returns the first disk in table order whose name text equals it |
| `Unix.ShowDriveInfo` | src/main.rs:256-273 | NotFound exactly when no disk in the table has the given name; otherwise the sizes of the first disk in table order with that name |
| `Unix.ShowDriveInfoSkipsGate` | src/main.rs:256-266 | when no sysfs read succeeds, the info lookup still reports the sizes of "/dev/sda1" although the classifier rejects it |
| `Unix.ShowDriveInfoGated` | src/main.rs:256-266 | a device the classifier rejects gives InvalidInput; a success implies the device is removable and is the lookup's answer |

## Findings

| source | as written | input that shows it | evidently intended | confidence | as-written member | corrected member |
|---|---|---|---|---|---|---|
| src/main.rs:256-266 | the Unix `show_drive_info` looks the disk up without the removability check that the Windows `show_drive_info` (src/main.rs:243-250) and both `fix_drive` variants make | disk "/dev/sda1", disk table with an entry named "/dev/sda1", no readable `/sys/block/sda1/removable`: sizes are reported | reject a non-removable device with InvalidInput before the lookup, as on Windows | medium, not executed | `Unix.ShowDriveInfoSkipsGate` | `Unix.ShowDriveInfoGated` |

## Left out

- `list_drives` (both platforms) is printing and is not part of this model. The Unix variant filters the disk table by passing each mount point, not the device name, to `is_removable`.
- `display_drive_info` is not modelled: it does floating-point division into gigabytes and percentages, without a guard for a total of zero.
- The Windows `get_drive_info` returns constant placeholder sizes. It is not part of this model; `Windows.ShowDriveInfo` takes the sizes as a parameter.
- Argument parsing with `clap` and the `main` dispatch are not modelled. Validation runs there, before `fix_drive` and `show_drive_info` are called.
- The UTF-16 encoding and terminating NUL of the root path given to `GetDriveTypeW` are not modelled. Only the string `drive + "\"` is.
- Lossy UTF-8 decoding of the child's output is not modelled. Standard output and standard error are opaque strings.
- Repair.ExecuteRepairCommand: returns the printed standard output inside `Ok`, where the source prints it and returns `Ok(())` (src/main.rs:225-230); the text returned is exactly what the source prints.
- Progress and result messages printed to the terminal, and their colours, are not modelled. The flush of standard output is, because its failure ends `fix_drive`.
- `Windows.ValidateDrive` upper-cases only the characters that can turn into an ASCII capital. Other characters are kept as they are, where the source applies full Unicode case mapping. This cannot change which inputs are accepted.
- The length test in `Windows.ValidateDrive` counts characters, whereas the source counts UTF-8 bytes. Both tests accept the same strings, because an accepted string is two ASCII characters.
- The real layout of sysfs, the mount table and the drive-type service are not modelled; each is a parameter.
- The repair subprocess blocks with no timeout. Timing is not modelled.
