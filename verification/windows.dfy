/** The Windows variant of fixr's device gateway. Devices are drive
    letters ("F:"); the operating system is consulted through two
    parameters standing for its calls: `driveType`, the drive-type code
    `GetDriveTypeW` reports for a root path, and the bit mask returned by
    `GetLogicalDrives`. */
module Windows {
  import opened Io
  import Repair

  newtype u32 = x: int | 0 <= x < 0x1_0000_0000

  /** `DRIVE_REMOVABLE`, the drive-type code of removable media. */
  const DriveRemovable: u32 := 2

  const InvalidLetterMessage: string := "Disk harfi geçersiz format. Örnek: 'F:'"
  const NotRemovableMessage: string := "Belirtilen sürücü taşınabilir disk değil!"
  const MaskMessage: string := "Sürücü maskesi alınamadı"

  /* ---------------- validate_drive ---------------- */

  /** Upper-casing of one character as `str::to_uppercase` does it for the
      characters that can become an ASCII capital: 'a'..'z', the dotless i
      (U+0131, to 'I') and the long s (U+017F, to 'S'). Every other
      character is kept, which cannot change whether a string is accepted. */
  function UpperChar(c: char): char {
    if 'a' <= c <= 'z' then (c as int - 32) as char
    else if c == 'ı' then 'I'
    else if c == 'ſ' then 'S'
    else c
  }

  function ToUpper(s: string): string {
    seq(|s|, i requires 0 <= i < |s| => UpperChar(s[i]))
  }

  predicate IsAsciiUpper(c: char) {
    'A' <= c <= 'Z'
  }

  /** The canonical shape of a drive identifier: a capital letter and a colon. */
  predicate IsDriveName(d: string) {
    |d| == 2 && IsAsciiUpper(d[0]) && d[1] == ':'
  }

  /** The characters a user may type as the drive letter. */
  predicate IsLetterInput(c: char) {
    ('a' <= c <= 'z') || ('A' <= c <= 'Z') || c == 'ı' || c == 'ſ'
  }

  /** `validate_drive`: upper-case the argument and accept it when it is
      two characters long, ends with ':' and starts with an ASCII capital. */
  function ValidateDrive(s: string): (r: Result<string, string>)
    ensures r.Ok? <==> |s| == 2 && IsLetterInput(s[0]) && s[1] == ':'
    ensures r.Ok? ==> IsDriveName(r.value) && r.value[1] == s[1] &&
                      (IsAsciiUpper(s[0]) ==> r.value == s) &&
                      ('a' <= s[0] <= 'z' ==> r.value[0] as int == s[0] as int - 32) &&
                      (s[0] == 'ı' ==> r.value == "I:") &&
                      (s[0] == 'ſ' ==> r.value == "S:")
    ensures r.Err? ==> r.error == InvalidLetterMessage
  {
    var u := ToUpper(s);
    if |u| == 2 && u[1] == ':' && IsAsciiUpper(u[0]) then Ok(u)
    else Err(InvalidLetterMessage)
  }

  /** Every drive identifier in canonical shape validates to itself. */
  lemma ValidateDriveName(d: string)
    requires IsDriveName(d)
    ensures ValidateDrive(d) == Ok(d)
  {
    assert ToUpper(d) == d;
  }

  /** Validating an already validated identifier changes nothing. */
  lemma ValidateDriveIdempotent(s: string)
    requires ValidateDrive(s).Ok?
    ensures ValidateDrive(ValidateDrive(s).value) == ValidateDrive(s)
  {
    ValidateDriveName(ValidateDrive(s).value);
  }

  /* ---------------- is_removable ---------------- */

  /** `is_removable`: the drive is removable when the drive-type code the
      operating system reports for its root path `drive + "\"` is
      `DRIVE_REMOVABLE`; any other code, including those for an unknown
      drive or a missing root directory, classifies it as not removable. */
  predicate IsRemovable(drive: string, driveType: string -> u32) {
    driveType(drive + "\\") == DriveRemovable
  }

  /** The classifier is fail-safe: the codes for an unknown drive (0) and
      for a missing root directory (1), and the codes of the fixed, remote,
      CD-ROM and RAM-disk classes (3 to 6), all classify the drive as not
      removable. */
  lemma ClassifierFailSafe(drive: string, driveType: string -> u32)
    requires driveType(drive + "\\") in {0, 1, 3, 4, 5, 6}
    ensures !IsRemovable(drive, driveType)
  {
  }

  /** The verdict depends only on what the operating system reports for the
      root path `drive + "\"`: two drive-type services that agree there
      classify the drive alike. */
  lemma ClassifierReadsRootOnly(drive: string, driveType1: string -> u32, driveType2: string -> u32)
    requires driveType1(drive + "\\") == driveType2(drive + "\\")
    ensures IsRemovable(drive, driveType1) == IsRemovable(drive, driveType2)
  {
  }

  /* ---------------- get_removable_drives ---------------- */

  /** The identifier built for bit `i` of the logical-drive mask. */
  function DriveName(i: nat): (d: string)
    requires i < 26
    ensures IsDriveName(d) && d[0] as int - 'A' as int == i
  {
    [('A' as int + i) as char, ':']
  }

  /** The bit index a drive identifier stands for. */
  function LetterIndex(d: string): int
    requires |d| > 0
  {
    d[0] as int - 'A' as int
  }

  predicate BitSet(mask: bv32, i: nat)
    requires i < 32
  {
    (mask >> i) & 1 != 0
  }

  /** Drive `i` belongs in the listing: its bit is set and the classifier
      accepts its identifier. */
  predicate Listed(mask: bv32, driveType: string -> u32, i: nat)
    requires i < 26
  {
    BitSet(mask, i) && IsRemovable(DriveName(i), driveType)
  }

  /** The listed drives among bits 0 .. n-1, in bit order. */
  function RemovableDrivesBelow(mask: bv32, driveType: string -> u32, n: nat): seq<string>
    requires n <= 26
  {
    if n == 0 then []
    else RemovableDrivesBelow(mask, driveType, n - 1) +
         (if Listed(mask, driveType, n - 1) then [DriveName(n - 1)] else [])
  }

  function RemovableDrives(mask: bv32, driveType: string -> u32): seq<string> {
    RemovableDrivesBelow(mask, driveType, 26)
  }

  /** Every listed identifier is a canonical drive name of a bit below n
      that is set and accepted by the classifier; the listing is strictly
      ascending by letter and holds at most n identifiers. */
  lemma {:induction false} RemovableDrivesBelowSound(mask: bv32, driveType: string -> u32, n: nat)
    requires n <= 26
    ensures var r := RemovableDrivesBelow(mask, driveType, n);
      |r| <= n &&
      (forall k :: 0 <= k < |r| ==>
         IsDriveName(r[k]) && 0 <= LetterIndex(r[k]) < n &&
         r[k] == DriveName(LetterIndex(r[k])) && Listed(mask, driveType, LetterIndex(r[k]))) &&
      (forall j, k :: 0 <= j < k < |r| ==> r[j][0] < r[k][0])
  {
    if n > 0 {
      RemovableDrivesBelowSound(mask, driveType, n - 1);
    }
  }

  /** No identifier of a bit at or above n is listed among bits below n. */
  lemma AbsentFromBelow(mask: bv32, driveType: string -> u32, n: nat, i: nat)
    requires n <= i < 26
    ensures DriveName(i) !in RemovableDrivesBelow(mask, driveType, n)
  {
    var r := RemovableDrivesBelow(mask, driveType, n);
    RemovableDrivesBelowSound(mask, driveType, n);
    forall k | 0 <= k < |r|
      ensures r[k] != DriveName(i)
    {
      assert LetterIndex(r[k]) < n;
    }
  }

  /** Drive i (below n) is in the listing exactly when its bit is set and
      the classifier accepts it. */
  lemma {:induction false} RemovableDrivesBelowComplete(mask: bv32, driveType: string -> u32, n: nat, i: nat)
    requires i < n <= 26
    ensures DriveName(i) in RemovableDrivesBelow(mask, driveType, n) <==> Listed(mask, driveType, i)
  {
    if i == n - 1 {
      AbsentFromBelow(mask, driveType, n - 1, i);
    } else {
      RemovableDrivesBelowComplete(mask, driveType, n - 1, i);
      assert DriveName(i)[0] != DriveName(n - 1)[0];
    }
  }

  /** Bit i of the mask, for i below 26, survives masking with the low 26 bits. */
  lemma LowBitKept(mask: bv32, i: nat)
    requires i < 26
    ensures BitSet(mask, i) == BitSet(mask & 0x3FF_FFFF, i)
  {
  }

  /** Bits 26 to 31 of the mask never influence the listing. */
  lemma {:induction false} HighBitsIgnored(mask: bv32, driveType: string -> u32, n: nat)
    requires n <= 26
    ensures RemovableDrivesBelow(mask, driveType, n) == RemovableDrivesBelow(mask & 0x3FF_FFFF, driveType, n)
  {
    if n > 0 {
      HighBitsIgnored(mask, driveType, n - 1);
      LowBitKept(mask, n - 1);
    }
  }

  /** Every listed drive passes argument validation unchanged and is
      accepted by the safety gate of `FixDrive`. */
  lemma ListedDrivesAreRepairable(mask: bv32, driveType: string -> u32, d: string)
    requires d in RemovableDrives(mask, driveType)
    ensures ValidateDrive(d) == Ok(d) && IsRemovable(d, driveType)
  {
    RemovableDrivesBelowSound(mask, driveType, 26);
    ValidateDriveName(d);
  }

  /** `get_removable_drives`, given the mask `GetLogicalDrives` returned:
      a zero mask is an error; otherwise bits 0 to 25 are scanned in order
      and each set bit whose identifier the classifier accepts is listed. */
  method GetRemovableDrives(mask: bv32, driveType: string -> u32) returns (r: Result<seq<string>, IoError>)
    ensures mask == 0 ==> r == Err(IoError(Other, MaskMessage))
    ensures mask != 0 ==> r == Ok(RemovableDrives(mask, driveType))
    ensures r.Ok? ==> |r.value| <= 26 &&
                      (forall k :: 0 <= k < |r.value| ==> IsDriveName(r.value[k])) &&
                      (forall i :: 0 <= i < 26 ==> (DriveName(i) in r.value <==> Listed(mask, driveType, i))) &&
                      (forall j, k :: 0 <= j < k < |r.value| ==> r.value[j][0] < r.value[k][0])
  {
    if mask == 0 {
      return Err(IoError(Other, MaskMessage));
    }
    var drives: seq<string> := [];
    for i := 0 to 26
      invariant drives == RemovableDrivesBelow(mask, driveType, i)
    {
      if (mask >> i) & 1 != 0 {
        var driveLetter := DriveName(i);
        if IsRemovable(driveLetter, driveType) {
          drives := drives + [driveLetter];
        }
      }
    }
    RemovableDrivesBelowSound(mask, driveType, 26);
    forall i | 0 <= i < 26
      ensures DriveName(i) in drives <==> Listed(mask, driveType, i)
    {
      RemovableDrivesBelowComplete(mask, driveType, 26, i);
    }
    return Ok(drives);
  }

  /* ---------------- fix_drive ---------------- */

  /** `fix_drive`. `flush` is the outcome of flushing the progress message
      to standard output and `run` stands for `Command::output`. Returns
      the result together with the side effects performed on the host, in
      order. A drive the classifier rejects yields an `InvalidInput` error
      before any command exists; otherwise `chkdsk <disk> /F` is run, with
      `/X` added when forced. */
  method FixDrive(disk: string, force: bool, driveType: string -> u32, flush: Result<(), IoError>,
                  run: CommandLine -> Result<ProcessOutput, IoError>)
    returns (r: Result<string, IoError>, effects: seq<Effect>)
    ensures !IsRemovable(disk, driveType) ==>
              r == Err(IoError(InvalidInput, NotRemovableMessage)) && effects == []
    ensures IsRemovable(disk, driveType) && flush.Err? ==> r == Err(flush.error) && effects == []
    ensures IsRemovable(disk, driveType) && flush.Ok? ==>
              var line := CommandLine("chkdsk", if force then [disk, "/F", "/X"] else [disk, "/F"]);
              effects == [Spawn(line)] && r == Repair.ExecuteRepairCommand(run(line))
  {
    if !IsRemovable(disk, driveType) {
      return Err(IoError(InvalidInput, NotRemovableMessage)), [];
    }
    if flush.Err? {
      return Err(flush.error), [];
    }
    var command := new Repair.Command("chkdsk");
    command.Arg(disk);
    if force {
      command.Arg("/F");
      command.Arg("/X");
    } else {
      command.Arg("/F");
    }
    var line := command.Line();
    assert line.program == "chkdsk";
    assert line.args == if force then [disk, "/F", "/X"] else [disk, "/F"];
    effects := [Spawn(line)];
    r := Repair.ExecuteRepairCommand(run(line));
  }

  /* ---------------- show_drive_info ---------------- */

  /** `show_drive_info`: a drive the classifier rejects yields an
      `InvalidInput` error; otherwise the sizes `get_drive_info` reports
      (the parameter `info`) are what is displayed. */
  function ShowDriveInfo(disk: string, driveType: string -> u32, info: Usage): (r: Result<Usage, IoError>)
    ensures r.Ok? <==> IsRemovable(disk, driveType)
    ensures r.Ok? ==> r.value == info
    ensures r.Err? ==> r.error == IoError(InvalidInput, NotRemovableMessage)
  {
    if !IsRemovable(disk, driveType) then Err(IoError(InvalidInput, NotRemovableMessage))
    else Ok(info)
  }
}
