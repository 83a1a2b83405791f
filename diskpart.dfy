/**
 * The diskpart script `make_usb_bootable` writes before it runs
 * `diskpart /s`, and a reference reading of what those commands do to the
 * disks of the machine, so that the script's effect can be stated.
 */
module Diskpart {
  import opened Wrappers
  import opened Text

  const UefiMode := "UEFI"

  /** The lines of the script for `disk_index` and `boot_mode`, in the order they are written. */
  function BuildScript(diskIndex: int, bootMode: string): seq<string> {
    ["select disk " + IntToString(diskIndex), "clean"]
    + (if bootMode == UefiMode then
         ["convert gpt", "create partition primary", "format fs=fat32 quick"]
       else
         ["create partition primary", "select partition 1", "active", "format fs=ntfs quick"])
    + ["assign letter=Z", "exit"]
  }

  /**
   * Every script opens by selecting the requested disk and wiping it, and
   * closes by assigning Z and leaving diskpart; the number in the first
   * line reads back as the requested index.
   */
  lemma ScriptFrame(diskIndex: int, bootMode: string)
    ensures var r := BuildScript(diskIndex, bootMode);
      && |r| >= 4
      && HasPrefix(r[0], "select disk ") && ParseInt(r[0][12..]) == Some(diskIndex)
      && r[1] == "clean"
      && r[|r| - 2] == "assign letter=Z" && r[|r| - 1] == "exit"
  {
    IntRoundTrip(diskIndex);
    var r := BuildScript(diskIndex, bootMode);
    assert r[0][12..] == IntToString(diskIndex);
  }

  /** Between the wipe and the letter assignment, UEFI converts to GPT, creates and formats FAT32. */
  lemma UefiSteps(diskIndex: int)
    ensures var r := BuildScript(diskIndex, UefiMode);
      r[2..|r| - 2] == ["convert gpt", "create partition primary", "format fs=fat32 quick"]
  {
  }

  /**
   * Any other mode creates a partition, selects it, marks it active and
   * formats NTFS, and never converts the partition scheme.
   */
  lemma LegacySteps(diskIndex: int, bootMode: string)
    requires bootMode != UefiMode
    ensures var r := BuildScript(diskIndex, bootMode);
      && r[2..|r| - 2] == ["create partition primary", "select partition 1", "active", "format fs=ntfs quick"]
      && "convert gpt" !in r
  {
    var r := BuildScript(diskIndex, bootMode);
    assert r[0] != "convert gpt" by {
      assert r[0][0] == 's';
    }
  }

  // ---------------------------------------------------------------------
  // A reference reading of the diskpart commands the script uses.
  // ---------------------------------------------------------------------

  /** A disk's partition scheme; `Raw` is a disk that `clean` left uninitialised. */
  datatype Scheme = Raw | Mbr | Gpt

  datatype Volume = Volume(fs: Option<string>, active: bool, letter: Option<char>)

  datatype Disk = Disk(scheme: Scheme, volumes: seq<Volume>)

  /**
   * A diskpart session: the machine's disks by index, the disk and the
   * partition (0-based) in focus, and whether `exit` was read.
   */
  datatype Session = Session(disks: map<int, Disk>, disk: Option<int>, part: Option<nat>, exited: bool)

  function Start(disks: map<int, Disk>): Session {
    Session(disks, None, None, false)
  }

  function SetVolume(s: Session, d: int, k: nat, v: Volume): Session
    requires d in s.disks && k < |s.disks[d].volumes|
  {
    s.(disks := s.disks[d := s.disks[d].(volumes := s.disks[d].volumes[k := v])])
  }

  /** No volume on a disk other than `d` carries the drive letter `c`. */
  predicate LetterFree(disks: map<int, Disk>, d: int, c: char) {
    forall e, j :: e in disks && e != d && 0 <= j < |disks[e].volumes| ==> disks[e].volumes[j].letter != Some(c)
  }

  /** Some volume other than volume `k` of disk `d` carries the drive letter `c`. */
  predicate LetterHeldElsewhere(disks: map<int, Disk>, d: int, k: nat, c: char) {
    exists e, j :: e in disks && 0 <= j < |disks[e].volumes| && (e != d || j != k) && disks[e].volumes[j].letter == Some(c)
  }

  /**
   * One script line; `None` is a command diskpart rejects, which makes
   * `diskpart /s` stop and exit with an error.
   */
  function Exec(s: Session, line: string): Option<Session> {
    if s.exited then Some(s)
    else if line == "exit" then Some(s.(exited := true))
    else if HasPrefix(line, "select disk ") then
      match ParseInt(line[12..])
      case Some(n) => if n in s.disks then Some(s.(disk := Some(n), part := None)) else None
      case None => None
    else if s.disk.None? || s.disk.value !in s.disks then None
    else ExecOnDisk(s, s.disk.value, line)
  }

  /** A command that needs the disk `d` in focus. */
  function ExecOnDisk(s: Session, d: int, line: string): Option<Session>
    requires d in s.disks
  {
    var disk := s.disks[d];
    if line == "clean" then
      Some(s.(disks := s.disks[d := Disk(Raw, [])], part := None))
    else if line == "convert gpt" then
      if disk.volumes == [] && disk.scheme != Gpt then Some(s.(disks := s.disks[d := disk.(scheme := Gpt)]))
      else None
    else if line == "create partition primary" then
      var scheme := if disk.scheme == Raw then Mbr else disk.scheme;
      Some(s.(disks := s.disks[d := Disk(scheme, disk.volumes + [Volume(None, false, None)])],
              part := Some(|disk.volumes|)))
    else if HasPrefix(line, "select partition ") then
      match ParseInt(line[17..])
      case Some(k) => if 1 <= k <= |disk.volumes| then Some(s.(part := Some(k - 1))) else None
      case None => None
    else if s.part.None? || s.part.value >= |disk.volumes| then None
    else ExecOnPartition(s, d, s.part.value, line)
  }

  /** A command that needs partition `k` of disk `d` in focus. */
  function ExecOnPartition(s: Session, d: int, k: nat, line: string): Option<Session>
    requires d in s.disks && k < |s.disks[d].volumes|
  {
    var v := s.disks[d].volumes[k];
    if line == "active" then
      if s.disks[d].scheme == Mbr then Some(SetVolume(s, d, k, v.(active := true))) else None
    else if HasPrefix(line, "format fs=") && |line| >= 16 && line[|line| - 6..] == " quick" then
      Some(SetVolume(s, d, k, v.(fs := Some(Upper(line[10..|line| - 6])))))
    else if HasPrefix(line, "assign letter=") && |line| == 15 then
      // a letter another volume holds is refused
      if LetterHeldElsewhere(s.disks, d, k, line[14]) then None
      else Some(SetVolume(s, d, k, v.(letter := Some(line[14]))))
    else None
  }

  /** A whole script, line by line, stopping at the first rejected command. */
  function Run(s: Session, lines: seq<string>): Option<Session>
    decreases |lines|
  {
    if lines == [] then Some(s)
    else
      match Exec(s, lines[0])
      case None => None
      case Some(next) => Run(next, lines[1..])
  }

  /** What the script leaves on the target disk: one formatted partition lettered Z. */
  function Provisioned(bootMode: string): Disk {
    if bootMode == UefiMode then Disk(Gpt, [Volume(Some("FAT32"), false, Some('Z'))])
    else Disk(Mbr, [Volume(Some("NTFS"), true, Some('Z'))])
  }

  lemma ExecSelectDisk(m: map<int, Disk>, d: int)
    requires d in m
    ensures Exec(Start(m), "select disk " + IntToString(d)) == Some(Session(m, Some(d), None, false))
  {
    var line := "select disk " + IntToString(d);
    IntRoundTrip(d);
    assert line[12..] == IntToString(d);
    assert line != "exit" by { assert line[0] == 's'; }
  }

  lemma ExecClean(m: map<int, Disk>, d: int)
    requires d in m
    ensures Exec(Session(m, Some(d), None, false), "clean") == Some(Session(m[d := Disk(Raw, [])], Some(d), None, false))
  {
  }

  lemma ExecConvertGpt(m: map<int, Disk>, d: int)
    requires d in m && m[d] == Disk(Raw, [])
    ensures Exec(Session(m, Some(d), None, false), "convert gpt") == Some(Session(m[d := Disk(Gpt, [])], Some(d), None, false))
  {
  }

  lemma ExecCreatePrimary(m: map<int, Disk>, d: int)
    requires d in m && m[d].volumes == []
    ensures var scheme := if m[d].scheme == Raw then Mbr else m[d].scheme;
      Exec(Session(m, Some(d), None, false), "create partition primary")
        == Some(Session(m[d := Disk(scheme, [Volume(None, false, None)])], Some(d), Some(0), false))
  {
    var line := "create partition primary";
    assert !HasPrefix(line, "select disk ") by { assert line[0] != 's'; }
    assert [] + [Volume(None, false, None)] == [Volume(None, false, None)];
  }

  lemma ExecSelectFirstPartition(m: map<int, Disk>, d: int)
    requires d in m && |m[d].volumes| >= 1
    ensures Exec(Session(m, Some(d), Some(0), false), "select partition 1") == Some(Session(m, Some(d), Some(0), false))
  {
    var line := "select partition 1";
    assert !HasPrefix(line, "select disk ") by { assert line[7] != 'd'; }
    assert line[17..] == "1";
    assert DigitsValue("1") == 1 by { assert "1"[..0] == ""; }
  }

  lemma ExecActive(m: map<int, Disk>, d: int, v: Volume)
    requires d in m && m[d] == Disk(Mbr, [v])
    ensures Exec(Session(m, Some(d), Some(0), false), "active")
         == Some(Session(m[d := Disk(Mbr, [v.(active := true)])], Some(d), Some(0), false))
  {
    var w := v.(active := true);
    assert m[d].volumes[0 := w] == [w];
  }

  /** The file system name a `format` line of the script asks for. */
  predicate FormatLine(line: string, fs: string) {
    (line == "format fs=fat32 quick" && fs == "FAT32") || (line == "format fs=ntfs quick" && fs == "NTFS")
  }

  lemma ExecFormat(m: map<int, Disk>, d: int, sc: Scheme, v: Volume, line: string, fs: string)
    requires d in m && m[d] == Disk(sc, [v])
    requires FormatLine(line, fs)
    ensures Exec(Session(m, Some(d), Some(0), false), line)
         == Some(Session(m[d := Disk(sc, [v.(fs := Some(fs))])], Some(d), Some(0), false))
  {
    UpperFsNames();
    assert Upper(line[10..|line| - 6]) == fs by {
      if fs == "FAT32" {
        assert line[10..|line| - 6] == "fat32";
      } else {
        assert line[10..|line| - 6] == "ntfs";
      }
    }
    assert !HasPrefix(line, "select disk ") by { assert line[0] != 's'; }
    assert !HasPrefix(line, "select partition ") by { assert line[0] != 's'; }
    assert HasPrefix(line, "format fs=");
    assert line[|line| - 6..] == " quick";
    assert line != "exit" && line != "clean" && line != "active" by { assert line[0] == 'f'; }
    assert line != "convert gpt" && line != "create partition primary" by { assert line[0] == 'f'; }
    var w := v.(fs := Some(fs));
    assert m[d].volumes[0 := w] == [w];
  }

  lemma ExecAssignZ(m: map<int, Disk>, d: int, sc: Scheme, v: Volume)
    requires d in m && m[d] == Disk(sc, [v]) && LetterFree(m, d, 'Z')
    ensures Exec(Session(m, Some(d), Some(0), false), "assign letter=Z")
         == Some(Session(m[d := Disk(sc, [v.(letter := Some('Z'))])], Some(d), Some(0), false))
  {
    var line := "assign letter=Z";
    assert !HasPrefix(line, "select disk ") by { assert line[0] != 's'; }
    assert !HasPrefix(line, "select partition ") by { assert line[0] != 's'; }
    assert !HasPrefix(line, "format fs=") by { assert line[0] != 'f'; }
    assert !LetterHeldElsewhere(m, d, 0, 'Z');
    var w := v.(letter := Some('Z'));
    assert m[d].volumes[0 := w] == [w];
  }

  /** One accepted line advances the run to the next one. */
  lemma RunStep(s: Session, lines: seq<string>, next: Session)
    requires lines != [] && Exec(s, lines[0]) == Some(next)
    ensures Run(s, lines) == Run(next, lines[1..])
  {
  }

  lemma UpperFsNames()
    ensures Upper("fat32") == "FAT32" && Upper("ntfs") == "NTFS"
  {
    assert Upper("fat32") == "FAT32" by {
      assert UpperChar('f') == 'F' && UpperChar('a') == 'A' && UpperChar('t') == 'T';
    }
    assert Upper("ntfs") == "NTFS" by {
      assert UpperChar('n') == 'N' && UpperChar('t') == 'T' && UpperChar('f') == 'F' && UpperChar('s') == 'S';
    }
  }

  /** The last three lines: format, assign Z and exit, on a disk with one partition in focus. */
  lemma RunFinish(m: map<int, Disk>, d: int, sc: Scheme, v: Volume, f: string, fs: string)
    requires d in m && m[d] == Disk(sc, [v]) && LetterFree(m, d, 'Z')
    requires FormatLine(f, fs)
    ensures Run(Session(m, Some(d), Some(0), false), [f, "assign letter=Z", "exit"])
         == Some(Session(m[d := Disk(sc, [v.(fs := Some(fs), letter := Some('Z'))])], Some(d), Some(0), true))
  {
    var lines := [f, "assign letter=Z", "exit"];
    var v1 := v.(fs := Some(fs));
    var m1 := m[d := Disk(sc, [v1])];
    ExecFormat(m, d, sc, v, f, fs);
    RunStep(Session(m, Some(d), Some(0), false), lines, Session(m1, Some(d), Some(0), false));
    var m2 := m1[d := Disk(sc, [v1.(letter := Some('Z'))])];
    ExecAssignZ(m1, d, sc, v1);
    RunStep(Session(m1, Some(d), Some(0), false), lines[1..], Session(m2, Some(d), Some(0), false));
    RunStep(Session(m2, Some(d), Some(0), false), lines[2..], Session(m2, Some(d), Some(0), true));
    assert lines[3..] == [];
    assert m2 == m[d := Disk(sc, [v.(fs := Some(fs), letter := Some('Z'))])];
  }

  /** The first two lines: select the disk and wipe it. */
  lemma RunOpening(disks: map<int, Disk>, d: int, rest: seq<string>)
    requires d in disks
    ensures Run(Start(disks), ["select disk " + IntToString(d), "clean"] + rest)
         == Run(Session(disks[d := Disk(Raw, [])], Some(d), None, false), rest)
  {
    var lines := ["select disk " + IntToString(d), "clean"] + rest;
    ExecSelectDisk(disks, d);
    RunStep(Start(disks), lines, Session(disks, Some(d), None, false));
    ExecClean(disks, d);
    RunStep(Session(disks, Some(d), None, false), lines[1..], Session(disks[d := Disk(Raw, [])], Some(d), None, false));
    assert lines[1..][1..] == rest;
  }

  lemma UefiMiddle(m: map<int, Disk>, d: int)
    requires d in m && m[d] == Disk(Raw, [])
    ensures Run(Session(m, Some(d), None, false),
                ["convert gpt", "create partition primary", "format fs=fat32 quick", "assign letter=Z", "exit"])
         == Run(Session(m[d := Disk(Gpt, [Volume(None, false, None)])], Some(d), Some(0), false),
                ["format fs=fat32 quick", "assign letter=Z", "exit"])
  {
    var lines := ["convert gpt", "create partition primary", "format fs=fat32 quick", "assign letter=Z", "exit"];
    var m1 := m[d := Disk(Gpt, [])];
    ExecConvertGpt(m, d);
    RunStep(Session(m, Some(d), None, false), lines, Session(m1, Some(d), None, false));
    ExecCreatePrimary(m1, d);
    RunStep(Session(m1, Some(d), None, false), lines[1..],
            Session(m1[d := Disk(Gpt, [Volume(None, false, None)])], Some(d), Some(0), false));
    assert lines[1..][1..] == ["format fs=fat32 quick", "assign letter=Z", "exit"];
    assert m1[d := Disk(Gpt, [Volume(None, false, None)])] == m[d := Disk(Gpt, [Volume(None, false, None)])];
  }

  lemma LegacyMiddle(m: map<int, Disk>, d: int)
    requires d in m && m[d] == Disk(Raw, [])
    ensures Run(Session(m, Some(d), None, false),
                ["create partition primary", "select partition 1", "active", "format fs=ntfs quick", "assign letter=Z", "exit"])
         == Run(Session(m[d := Disk(Mbr, [Volume(None, true, None)])], Some(d), Some(0), false),
                ["format fs=ntfs quick", "assign letter=Z", "exit"])
  {
    var lines := ["create partition primary", "select partition 1", "active", "format fs=ntfs quick", "assign letter=Z", "exit"];
    var blank := Volume(None, false, None);
    var m1 := m[d := Disk(Mbr, [blank])];
    ExecCreatePrimary(m, d);
    RunStep(Session(m, Some(d), None, false), lines, Session(m1, Some(d), Some(0), false));
    ExecSelectFirstPartition(m1, d);
    RunStep(Session(m1, Some(d), Some(0), false), lines[1..], Session(m1, Some(d), Some(0), false));
    ExecActive(m1, d, blank);
    var m2 := m1[d := Disk(Mbr, [blank.(active := true)])];
    RunStep(Session(m1, Some(d), Some(0), false), lines[2..], Session(m2, Some(d), Some(0), false));
    assert lines[3..] == ["format fs=ntfs quick", "assign letter=Z", "exit"];
    assert m2 == m[d := Disk(Mbr, [Volume(None, true, None)])];
  }

  lemma ExecAssignTaken(m: map<int, Disk>, d: int, sc: Scheme, v: Volume)
    requires d in m && m[d] == Disk(sc, [v]) && LetterHeldElsewhere(m, d, 0, 'Z')
    ensures Exec(Session(m, Some(d), Some(0), false), "assign letter=Z") == None
  {
    var line := "assign letter=Z";
    assert !HasPrefix(line, "select disk ") by { assert line[0] != 's'; }
    assert !HasPrefix(line, "select partition ") by { assert line[0] != 's'; }
    assert !HasPrefix(line, "format fs=") by { assert line[0] != 'f'; }
  }

  /** A script that reaches `assign letter=Z` while another disk's volume holds Z stops there. */
  lemma RunFinishTaken(m: map<int, Disk>, d: int, sc: Scheme, v: Volume, f: string, fs: string)
    requires d in m && m[d] == Disk(sc, [v]) && !LetterFree(m, d, 'Z')
    requires FormatLine(f, fs)
    ensures Run(Session(m, Some(d), Some(0), false), [f, "assign letter=Z", "exit"]) == None
  {
    var lines := [f, "assign letter=Z", "exit"];
    var v1 := v.(fs := Some(fs));
    var m1 := m[d := Disk(sc, [v1])];
    ExecFormat(m, d, sc, v, f, fs);
    RunStep(Session(m, Some(d), Some(0), false), lines, Session(m1, Some(d), Some(0), false));
    var e, j :| e in m && e != d && 0 <= j < |m[e].volumes| && m[e].volumes[j].letter == Some('Z');
    assert m1[e] == m[e];
    ExecAssignTaken(m1, d, sc, v1);
    assert lines[1..][0] == "assign letter=Z";
  }

  /** What the script leaves on the target disk just before its `format` line. */
  function Prepared(bootMode: string): Disk {
    if bootMode == UefiMode then Disk(Gpt, [Volume(None, false, None)])
    else Disk(Mbr, [Volume(None, true, None)])
  }

  /** The `format` line of the script for `bootMode`. */
  function FormatFor(bootMode: string): string {
    if bootMode == UefiMode then "format fs=fat32 quick" else "format fs=ntfs quick"
  }

  /**
   * Up to its `format` line, the script wipes the selected disk and leaves
   * one blank partition in focus: on GPT for UEFI, active on MBR otherwise.
   */
  lemma RunUpToFormat(disks: map<int, Disk>, d: int, bootMode: string)
    requires d in disks
    ensures Run(Start(disks), BuildScript(d, bootMode))
         == Run(Session(disks[d := Prepared(bootMode)], Some(d), Some(0), false),
                [FormatFor(bootMode), "assign letter=Z", "exit"])
  {
    if bootMode == UefiMode {
      UefiUpToFormat(disks, d);
    } else {
      LegacyUpToFormat(disks, d, bootMode);
    }
  }

  lemma UefiUpToFormat(disks: map<int, Disk>, d: int)
    requires d in disks
    ensures Run(Start(disks), BuildScript(d, UefiMode))
         == Run(Session(disks[d := Disk(Gpt, [Volume(None, false, None)])], Some(d), Some(0), false),
                ["format fs=fat32 quick", "assign letter=Z", "exit"])
  {
    var m1 := disks[d := Disk(Raw, [])];
    var rest := ["convert gpt", "create partition primary", "format fs=fat32 quick", "assign letter=Z", "exit"];
    assert BuildScript(d, UefiMode) == ["select disk " + IntToString(d), "clean"] + rest;
    RunOpening(disks, d, rest);
    UefiMiddle(m1, d);
    assert m1[d := Disk(Gpt, [Volume(None, false, None)])] == disks[d := Disk(Gpt, [Volume(None, false, None)])];
  }

  lemma LegacyUpToFormat(disks: map<int, Disk>, d: int, bootMode: string)
    requires d in disks && bootMode != UefiMode
    ensures Run(Start(disks), BuildScript(d, bootMode))
         == Run(Session(disks[d := Disk(Mbr, [Volume(None, true, None)])], Some(d), Some(0), false),
                ["format fs=ntfs quick", "assign letter=Z", "exit"])
  {
    var m1 := disks[d := Disk(Raw, [])];
    var rest := ["create partition primary", "select partition 1", "active", "format fs=ntfs quick", "assign letter=Z", "exit"];
    assert BuildScript(d, bootMode) == ["select disk " + IntToString(d), "clean"] + rest;
    RunOpening(disks, d, rest);
    LegacyMiddle(m1, d);
    assert m1[d := Disk(Mbr, [Volume(None, true, None)])] == disks[d := Disk(Mbr, [Volume(None, true, None)])];
  }

  /**
   * On a machine that has disk `diskIndex` and no other disk lettered Z, the
   * script runs to its end and replaces that disk by a single partition
   * (GPT and FAT32 for UEFI; MBR, active and NTFS otherwise) lettered Z; no
   * other disk changes.
   */
  lemma ProvisionEffect(disks: map<int, Disk>, diskIndex: int, bootMode: string)
    requires diskIndex in disks && LetterFree(disks, diskIndex, 'Z')
    ensures Run(Start(disks), BuildScript(diskIndex, bootMode))
         == Some(Session(disks[diskIndex := Provisioned(bootMode)], Some(diskIndex), Some(0), true))
  {
    var p := Prepared(bootMode);
    var m := disks[diskIndex := p];
    RunUpToFormat(disks, diskIndex, bootMode);
    var fs := if bootMode == UefiMode then "FAT32" else "NTFS";
    RunFinish(m, diskIndex, p.scheme, p.volumes[0], FormatFor(bootMode), fs);
    assert m[diskIndex := Provisioned(bootMode)] == disks[diskIndex := Provisioned(bootMode)];
  }

  /**
   * When a volume of another disk already holds Z, the script is refused at
   * `assign letter=Z`, after `clean` has wiped the selected disk.
   */
  lemma LetterTakenRejected(disks: map<int, Disk>, diskIndex: int, bootMode: string)
    requires diskIndex in disks && !LetterFree(disks, diskIndex, 'Z')
    ensures Run(Start(disks), BuildScript(diskIndex, bootMode)) == None
  {
    var p := Prepared(bootMode);
    var m := disks[diskIndex := p];
    RunUpToFormat(disks, diskIndex, bootMode);
    var e, j :| e in disks && e != diskIndex && 0 <= j < |disks[e].volumes| && disks[e].volumes[j].letter == Some('Z');
    assert m[e] == disks[e];
    var fs := if bootMode == UefiMode then "FAT32" else "NTFS";
    RunFinishTaken(m, diskIndex, p.scheme, p.volumes[0], FormatFor(bootMode), fs);
  }

  /**
   * The script runs to its end exactly when the machine has the disk and no
   * other disk's volume holds Z.
   */
  lemma ScriptAccepted(disks: map<int, Disk>, diskIndex: int, bootMode: string)
    ensures Run(Start(disks), BuildScript(diskIndex, bootMode)).Some? <==>
      diskIndex in disks && LetterFree(disks, diskIndex, 'Z')
  {
    if diskIndex !in disks {
      MissingDiskRejected(disks, diskIndex, bootMode);
    } else if LetterFree(disks, diskIndex, 'Z') {
      ProvisionEffect(disks, diskIndex, bootMode);
    } else {
      LetterTakenRejected(disks, diskIndex, bootMode);
    }
  }

  /** When the machine has no disk `diskIndex`, the very first line is rejected. */
  lemma MissingDiskRejected(disks: map<int, Disk>, diskIndex: int, bootMode: string)
    requires diskIndex !in disks
    ensures Run(Start(disks), BuildScript(diskIndex, bootMode)) == None
  {
    var lines := BuildScript(diskIndex, bootMode);
    ScriptFrame(diskIndex, bootMode);
    assert lines[0] != "exit" by { assert lines[0][0] == 's'; }
    assert Exec(Start(disks), lines[0]) == None;
    assert Run(Start(disks), lines) == None;
  }
}
