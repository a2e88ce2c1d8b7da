/** The Unix variant of fixr's device gateway. Devices are paths under
    "/dev/"; the operating system is consulted through parameters standing
    for its calls: `pathExists` for `Path::exists`, `readFile` for
    `fs::read_to_string` (None when the read fails), `umount` for
    `mount::umount` (the error text when it fails), and `disks` for the
    disk table `sysinfo` reports. */
module Unix {
  import opened Io
  import opened Text
  import Repair

  const DevPrefix: string := "/dev/"
  const InvalidPathMessage: string := "Geçersiz disk yolu. Örnek: '/dev/sdb1'"
  const NotRemovableMessage: string := "Belirtilen aygıt taşınabilir disk değil!"
  const NotFoundMessage: string := "Disk bulunamadı!"

  /* ---------------- validate_drive ---------------- */

  /** `validate_drive`: the argument is accepted, unchanged, when the path
      exists and begins with "/dev/". */
  function ValidateDrive(s: string, pathExists: string -> bool): (r: Result<string, string>)
    ensures r.Ok? <==> pathExists(s) && StartsWith(s, DevPrefix)
    ensures r.Ok? ==> r.value == s
    ensures r.Err? ==> r.error == InvalidPathMessage
  {
    if pathExists(s) && StartsWith(s, DevPrefix) then Ok(s) else Err(InvalidPathMessage)
  }

  /** Validating an already validated path changes nothing. */
  lemma ValidateDriveIdempotent(s: string, pathExists: string -> bool)
    requires ValidateDrive(s, pathExists).Ok?
    ensures ValidateDrive(ValidateDrive(s, pathExists).value, pathExists) == ValidateDrive(s, pathExists)
  {
  }

  /* ---------------- Path::file_name ---------------- */

  /** A path component `Path::file_name` can return: non-empty, without a
      separator, and neither "." nor "..". */
  predicate IsNormalComponent(c: string) {
    c != "" && c != "." && c != ".." && '/' !in c
  }

  /** The characters after the last '/' of `p` (all of `p` if it has none). */
  function LastSegment(p: string): (r: string)
    ensures |r| <= |p| && r == p[|p| - |r|..] && '/' !in r
    ensures |r| == |p| || p[|p| - |r| - 1] == '/'
  {
    if p == [] || p[|p| - 1] == '/' then []
    else LastSegment(p[..|p| - 1]) + [p[|p| - 1]]
  }

  /** `Path::file_name`: the last component of the path, where trailing
      separators and "." components are skipped; None when that component
      is ".." or when there is no component at all ("", "/", "."). */
  function FileName(path: string): (r: Option<string>)
    ensures r.Some? ==> IsNormalComponent(r.value)
    decreases |path|
  {
    if path == [] then None
    else if path[|path| - 1] == '/' then FileName(path[..|path| - 1])
    else
      var name := LastSegment(path);
      if name == "." then FileName(path[..|path| - 1])
      else if name == ".." then None
      else Some(name)
  }

  /** The file name of `dir/name` is `name`, for every directory part. */
  lemma FileNameOfChild(dir: string, name: string)
    requires IsNormalComponent(name)
    ensures FileName(dir + "/" + name) == Some(name)
  {
    var p := dir + "/" + name;
    var seg := LastSegment(p);
    assert p[|p| - |name|..] == name;
    assert p[|p| - |name| - 1] == '/';
    if |seg| < |name| {
      assert false;
    } else if |seg| > |name| {
      assert false;
    }
  }

  /** A bare name without a separator is its own file name. */
  lemma FileNameOfBareName(name: string)
    requires IsNormalComponent(name)
    ensures FileName(name) == Some(name)
  {
    assert LastSegment(name) == name;
  }

  /** The last segment of `dir/..` is "..". */
  lemma LastSegmentOfParent(dir: string)
    ensures LastSegment(dir + "/..") == ".."
  {
    var p := dir + "/..";
    var seg := LastSegment(p);
    assert p[|p| - 2..] == "..";
    assert p[|p| - 3] == '/';
    if |seg| < 2 {
      assert false;
    } else if |seg| > 2 {
      assert false;
    }
  }

  /** A path whose last component is ".." has no file name. */
  lemma FileNameOfParentComponent(dir: string)
    ensures FileName(dir + "/..") == None
  {
    LastSegmentOfParent(dir);
  }

  /** Trailing separators and trailing "." components do not change the
      file name. */
  lemma FileNameIgnoresTrailing(path: string)
    ensures FileName(path + "/") == FileName(path)
    ensures FileName(path + "/.") == FileName(path)
  {
    assert (path + "/")[..|path|] == path;
    assert (path + "/.")[..|path| + 1] == path + "/";
    assert LastSegment(path + "/.") == ".";
  }

  /* ---------------- is_removable ---------------- */

  /** The sysfs attribute read for a device whose name is "sd" + rest. */
  function RemovableAttributePath(rest: string): string {
    "/sys/block/sd" + rest + "/removable"
  }

  /** `is_removable`: the file name of the path must start with "sd"; the
      device then counts as removable when reading
      "/sys/block/sd<rest of the name>/removable" succeeds and its trimmed
      content is "1". Every failure along the way gives false. */
  predicate IsRemovable(path: string, readFile: string -> Option<string>) {
    match FileName(path)
    case None => false
    case Some(name) =>
      if StartsWith(name, "sd") then
        match readFile(RemovableAttributePath(name[2..]))
        case Some(content) => Trim(content) == "1"
        case None => false
      else false
  }

  /** For a name starting with "sd", the attribute path built from the rest
      of the name is "/sys/block/<name>/removable". */
  lemma AttributePathOfName(name: string)
    requires StartsWith(name, "sd")
    ensures RemovableAttributePath(name[2..]) == "/sys/block/" + name + "/removable"
  {
    assert name == "sd" + name[2..];
  }

  /** The classifier accepts a path exactly when it has a file name that
      starts with "sd" and the attribute file "/sys/block/<file name>/removable"
      reads as a single '1' padded by whitespace; so a missing file name,
      a missing prefix, a failed read or any other content is rejected. */
  lemma IsRemovableExactly(path: string, readFile: string -> Option<string>)
    ensures IsRemovable(path, readFile) <==>
              FileName(path).Some? && StartsWith(FileName(path).value, "sd") &&
              readFile("/sys/block/" + FileName(path).value + "/removable").Some? &&
              IsPaddedOne(readFile("/sys/block/" + FileName(path).value + "/removable").value)
  {
    match FileName(path)
    case None =>
    case Some(name) =>
      if StartsWith(name, "sd") {
        AttributePathOfName(name);
        match readFile(RemovableAttributePath(name[2..]))
        case None =>
        case Some(content) => TrimIsOne(content);
      }
  }

  /* ---------------- unmount_drive ---------------- */

  /** `unmount_drive`: an unmount failure becomes an `Other` error carrying
      the system's error text. */
  function UnmountDrive(path: string, umount: string -> Result<(), string>): (r: Result<(), IoError>)
    ensures r.Ok? <==> umount(path).Ok?
    ensures r.Err? ==> r.error == IoError(Other, umount(path).error)
  {
    match umount(path)
    case Ok(_) => Ok(())
    case Err(e) => Err(IoError(Other, e))
  }

  /* ---------------- fix_drive ---------------- */

  /** The command line `fix_drive` runs: `fsck -y <disk>`, with `-f` added
      when forced. */
  function FsckLine(disk: string, force: bool): CommandLine {
    CommandLine("fsck", if force then ["-y", disk, "-f"] else ["-y", disk])
  }

  /** The part of `fix_drive` after the removability gate: a forced repair
      first attempts an unmount, whose outcome is ignored; a failed flush of
      the progress message ends the run; then `fsck` is spawned once and
      its outcome is the result. */
  method RepairDevice(disk: string, force: bool, umount: string -> Result<(), string>,
                      flush: Result<(), IoError>, run: CommandLine -> Result<ProcessOutput, IoError>)
    returns (r: Result<string, IoError>, effects: seq<Effect>)
    ensures effects == (if force then [Unmount(disk)] else []) + (if flush.Ok? then [Spawn(FsckLine(disk, force))] else [])
    ensures r == (if flush.Ok? then Repair.ExecuteRepairCommand(run(FsckLine(disk, force))) else Err(flush.error))
  {
    effects := [];
    if force {
      var _ := UnmountDrive(disk, umount);
      effects := effects + [Unmount(disk)];
    }
    if flush.Err? {
      return Err(flush.error), effects;
    }
    var command := new Repair.Command("fsck");
    command.Arg("-y");
    command.Arg(disk);
    if force {
      command.Arg("-f");
    }
    var line := command.Line();
    assert line == FsckLine(disk, force);
    effects := effects + [Spawn(line)];
    r := Repair.ExecuteRepairCommand(run(line));
  }

  /** `fix_drive`. `flush` is the outcome of flushing the progress message
      to standard output and `run` stands for `Command::output`. Returns
      the result together with the side effects performed on the host, in
      order. A device the classifier rejects yields an `InvalidInput` error
      with no effect at all: nothing is unmounted, built or spawned. */
  method FixDrive(disk: string, force: bool, readFile: string -> Option<string>,
                  umount: string -> Result<(), string>, flush: Result<(), IoError>,
                  run: CommandLine -> Result<ProcessOutput, IoError>)
    returns (r: Result<string, IoError>, effects: seq<Effect>)
    ensures !IsRemovable(disk, readFile) ==>
              r == Err(IoError(InvalidInput, NotRemovableMessage)) && effects == []
    ensures IsRemovable(disk, readFile) ==>
              var line := CommandLine("fsck", if force then ["-y", disk, "-f"] else ["-y", disk]);
              effects == (if force then [Unmount(disk)] else []) + (if flush.Ok? then [Spawn(line)] else []) &&
              r == (if flush.Ok? then Repair.ExecuteRepairCommand(run(line)) else Err(flush.error))
  {
    if !IsRemovable(disk, readFile) {
      return Err(IoError(InvalidInput, NotRemovableMessage)), [];
    }
    r, effects := RepairDevice(disk, force, umount, flush, run);
  }

  /* ---------------- show_drive_info ---------------- */

  /** An entry of the disk table: its name (None when the name is not valid
      UTF-8), its mount point and its sizes in bytes. */
  datatype Disk = Disk(name: Option<string>, mountPoint: string, totalSpace: nat, availableSpace: nat)

  /** `d.name().to_str().unwrap_or("")`. */
  function NameText(d: Disk): string {
    match d.name
    case Some(n) => n
    case None => ""
  }

  /** `Iterator::find` over the disk table: the first disk whose name text
      equals `name`, or None when no disk has that name. */
  function FindDisk(disks: seq<Disk>, name: string): (r: Option<Disk>)
    ensures r.None? <==> forall k :: 0 <= k < |disks| ==> NameText(disks[k]) != name
    ensures r.Some? ==> exists k :: 0 <= k < |disks| && disks[k] == r.value && NameText(r.value) == name &&
                                    forall j :: 0 <= j < k ==> NameText(disks[j]) != name
  {
    if disks == [] then None
    else if NameText(disks[0]) == name then Some(disks[0])
    else
      var r := FindDisk(disks[1..], name);
      if r.None? then r
      else
        var k :| 0 <= k < |disks| - 1 && disks[1..][k] == r.value &&
                 forall j :: 0 <= j < k ==> NameText(disks[1..][j]) != name;
        assert disks[k + 1] == r.value;
        r
  }

  /** `show_drive_info`: the sizes of the first disk named `disk`, or a
      `NotFound` error when the table has no such disk. No removability
      check is made. */
  function ShowDriveInfo(disk: string, disks: seq<Disk>): (r: Result<Usage, IoError>)
    ensures r.Err? <==> forall k :: 0 <= k < |disks| ==> NameText(disks[k]) != disk
    ensures r.Err? ==> r.error == IoError(NotFound, NotFoundMessage)
    ensures r.Ok? ==> exists k :: 0 <= k < |disks| && NameText(disks[k]) == disk &&
                                  r.value == Usage(disks[k].totalSpace, disks[k].availableSpace) &&
                                  forall j :: 0 <= j < k ==> NameText(disks[j]) != disk
  {
    match FindDisk(disks, disk)
    case None => Err(IoError(NotFound, NotFoundMessage))
    case Some(d) => Ok(Usage(d.totalSpace, d.availableSpace))
  }

  /** The Unix info lookup reports on a system disk that the classifier
      rejects: "/dev/sda1" with no sysfs attribute readable. */
  lemma ShowDriveInfoSkipsGate(readFile: string -> Option<string>)
    requires forall p :: readFile(p) == None
    ensures var disks := [Disk(Some("/dev/sda1"), "/", 500, 100)];
            !IsRemovable("/dev/sda1", readFile) && ShowDriveInfo("/dev/sda1", disks) == Ok(Usage(500, 100))
  {
    FileNameOfChild("/dev", "sda1");
    assert "/dev" + "/" + "sda1" == "/dev/sda1";
  }

  /** `show_drive_info` with the removability check the Windows variant
      makes: a device the classifier rejects yields an `InvalidInput`
      error before the disk table is consulted. */
  function ShowDriveInfoGated(disk: string, readFile: string -> Option<string>, disks: seq<Disk>): (r: Result<Usage, IoError>)
    ensures !IsRemovable(disk, readFile) ==> r == Err(IoError(InvalidInput, NotRemovableMessage))
    ensures r.Ok? ==> IsRemovable(disk, readFile) &&
                      exists k :: 0 <= k < |disks| && NameText(disks[k]) == disk &&
                                  r.value == Usage(disks[k].totalSpace, disks[k].availableSpace) &&
                                  forall j :: 0 <= j < k ==> NameText(disks[j]) != disk
    ensures IsRemovable(disk, readFile) ==> r == ShowDriveInfo(disk, disks)
  {
    if !IsRemovable(disk, readFile) then Err(IoError(InvalidInput, NotRemovableMessage))
    else ShowDriveInfo(disk, disks)
  }
}
