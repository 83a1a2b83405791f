/**
 * The decisions `main` takes from its inputs: whether the image exists,
 * the external disks found, the disk index behind each device id, the
 * selection, the boot-mode answer and the confirmation. The console
 * answers are inputs; the messages printed are left to the outcome names.
 */
module Cli {
  import opened Wrappers
  import opened Text
  import Inventory
  import Diskpart
  import Orchestrator
  import IsoProbe

  /** The device namespace a WMI `DeviceID` of a physical disk starts with: `\\.\`. */
  const DeviceRoot := "\\\\.\\"

  const DriveWord := "PHYSICALDRIVE"

  /** What a physical disk's `DeviceID` looks like before its number. */
  const DevicePrefix := DeviceRoot + DriveWord

  /**
   * `int(device_id.split('\\')[-1].replace('PHYSICALDRIVE', ''))`;
   * `None` where `int` raises ValueError.
   */
  function DiskIndexOf(deviceId: string): Option<int> {
    ParseInt(RemoveAll(LastSegment(deviceId, '\\'), DriveWord))
  }

  /** The boot mode the answer selects: its upper case when UEFI or LEGACY, UEFI otherwise. */
  function BootMode(answer: string): (m: string)
    ensures m == Diskpart.UefiMode || m == "LEGACY"
    ensures m == "LEGACY" <==> Upper(answer) == "LEGACY"
    ensures m == Diskpart.UefiMode <==> Upper(answer) != "LEGACY"
  {
    var u := Upper(answer);
    if u in ["UEFI", "LEGACY"] then u else "UEFI"
  }

  /** `confirm.upper() == 'YES'`. */
  predicate Confirmed(answer: string) {
    Upper(answer) == "YES"
  }

  /** Every listed disk's device id gives a disk index, so the listing loop does not raise. */
  predicate AllIndicesParse(disks: seq<Inventory.ExternalDisk>) {
    forall k :: 0 <= k < |disks| ==> DiskIndexOf(disks[k].deviceId).Some?
  }

  /** The listing loop of `main`: the index of each disk, or `None` where one `int` raises. */
  method ListDiskIndices(disks: seq<Inventory.ExternalDisk>) returns (indices: Option<seq<int>>)
    ensures indices.Some? <==> AllIndicesParse(disks)
    ensures indices.Some? ==>
      |indices.value| == |disks| &&
      forall k :: 0 <= k < |disks| ==> DiskIndexOf(disks[k].deviceId) == Some(indices.value[k])
  {
    var found: seq<int> := [];
    var i := 0;
    while i < |disks|
      invariant 0 <= i <= |disks| && |found| == i
      invariant forall k {:trigger DiskIndexOf(disks[k].deviceId)} :: 0 <= k < i ==> DiskIndexOf(disks[k].deviceId) == Some(found[k])
    {
      var index := DiskIndexOf(disks[i].deviceId);
      if index.None? {
        assert !AllIndicesParse(disks) by {
          assert !DiskIndexOf(disks[i].deviceId).Some?;
        }
        return None;
      }
      found := found + [index.value];
      i := i + 1;
    }
    assert AllIndicesParse(disks);
    return Some(found);
  }

  /** What the user and the system give `main`. */
  datatype Inputs = Inputs(
    image: string,
    imageExists: bool,                    // `os.path.exists(iso_path)`
    disks: seq<Inventory.ExternalDisk>,   // `get_external_disks()`
    choice: string,                       // the disk number typed
    modeAnswer: string,                   // the boot mode typed
    confirm: string)                      // the confirmation typed

  /** Where `main` goes before anything is written to a disk. */
  datatype Decision =
    | ImageMissing          // `sys.exit(1)` after "file does not exist"
    | NoExternalDisk        // `sys.exit(1)` after "no external disk found"
    | DeviceIdCrash         // the ValueError of the listing loop, which no handler catches
    | NotANumber            // the ValueError handler
    | InvalidSelection      // "invalid choice"
    | Cancelled             // "operation cancelled"
    | Provision(diskIndex: int, bootMode: string)

  function Decide(inp: Inputs): Decision {
    if !inp.imageExists then ImageMissing
    else if inp.disks == [] then NoExternalDisk
    else if !AllIndicesParse(inp.disks) then DeviceIdCrash
    else
      match ParseInt(inp.choice)
      case None => NotANumber
      case Some(c) =>
        if !(0 <= c < |inp.disks|) then InvalidSelection
        else
          var index := DiskIndexOf(inp.disks[c].deviceId);
          if index.None? then NotANumber
          else if !Confirmed(inp.confirm) then Cancelled
          else Provision(index.value, BootMode(inp.modeAnswer))
  }

  /** How the run of `main` ends. */
  datatype Ending =
    | Stopped(decision: Decision)   // before `make_usb_bootable`
    | Succeeded(bootMode: string)   // the success banner
    | Failed                        // the failure banner
    | FatalError                    // an exception from `make_usb_bootable`, reported by the last handler

  /**
   * `main` with `make_usb_bootable`'s external steps turning out as `env`
   * says and its probe skipping the home drive by `rule` (`AsWritten` for
   * the program itself).
   */
  function MainEnding(inp: Inputs, env: Orchestrator.Environment, rule: IsoProbe.SkipRule): Ending {
    match Decide(inp)
    case Provision(index, mode) =>
      Report(Orchestrator.Flow(Diskpart.BuildScript(index, mode), inp.image, env, ProbeOf(rule, env)).outcome, mode)
    case d => Stopped(d)
  }

  /** The drive the probe returns once the image is mounted. */
  function ProbeOf(rule: IsoProbe.SkipRule, env: Orchestrator.Environment): Option<string> {
    IsoProbe.Probe(rule, env.home, env.view)
  }

  /** The banner for what `make_usb_bootable` ended with. */
  function Report(outcome: Orchestrator.Outcome, mode: string): Ending {
    if outcome == Orchestrator.Returned(true) then Succeeded(mode)
    else if outcome == Orchestrator.Raised then FatalError
    else Failed
  }

  // ---------------------------------------------------------------------
  // Device-id parsing.
  // ---------------------------------------------------------------------

  /** `\\.\PHYSICALDRIVE` followed by `str(n)` parses back to `n`. */
  lemma DeviceIdRoundTrip(n: int)
    ensures DiskIndexOf(DevicePrefix + IntToString(n)) == Some(n)
  {
    var digits := IntToString(n);
    IntToStringChars(n);
    var t := DriveWord + digits;
    assert DevicePrefix + digits == DeviceRoot + t;
    assert forall i :: 0 <= i < |t| ==> t[i] != '\\';
    SegmentAfterRoot(t);
    RemoveAllLeading(DriveWord, digits);
    IntRoundTrip(n);
  }

  /** The last segment of `\\.\` followed by text without a backslash is that text. */
  lemma SegmentAfterRoot(t: string)
    requires forall i :: 0 <= i < |t| ==> t[i] != '\\'
    ensures LastSegment(DeviceRoot + t, '\\') == t
  {
    LastSegmentAfter(DeviceRoot, t, '\\');
  }

  /** Text without a capital P keeps no occurrence of the word to remove. */
  lemma NothingToRemove(t: string)
    requires forall i :: 0 <= i < |t| ==> t[i] != 'P'
    ensures RemoveAll(t, DriveWord) == t
  {
    assert DriveWord[0] == 'P';
    RemoveAllAbsent(t, DriveWord);
  }

  /**
   * The word is matched case-sensitively: an id whose last segment starts
   * with a lower-case letter and holds no capital P gives no index.
   */
  lemma LowerCaseSegmentRejected(t: string)
    requires t != [] && 'a' <= t[0] <= 'z'
    requires forall i :: 0 <= i < |t| ==> t[i] != 'P' && t[i] != '\\'
    ensures DiskIndexOf(DeviceRoot + t) == None
  {
    SegmentAfterRoot(t);
    NothingToRemove(t);
    assert !IsDigit(t[0]);
  }

  /** `\\.\physicaldrive` followed by a number gives no index. */
  lemma LowerCaseIdRejected(n: int)
    ensures DiskIndexOf(DeviceRoot + ("physicaldrive" + IntToString(n))) == None
  {
    IntToStringChars(n);
    var t := "physicaldrive" + IntToString(n);
    assert forall i :: 0 <= i < |t| ==> t[i] != 'P' && t[i] != '\\';
    LowerCaseSegmentRejected(t);
  }

  /** A device id that ends in the word alone gives `int('')`, which raises. */
  lemma BareWordRejected()
    ensures DiskIndexOf(DevicePrefix) == None
  {
    assert forall i :: 0 <= i < |DriveWord| ==> DriveWord[i] != '\\';
    SegmentAfterRoot(DriveWord);
    RemoveAllLeading(DriveWord, "");
    assert DriveWord + "" == DriveWord;
  }

  // ---------------------------------------------------------------------
  // The answers.
  // ---------------------------------------------------------------------

  /** Normalising a normalised answer changes nothing. */
  lemma BootModeIdempotent(answer: string)
    ensures BootMode(BootMode(answer)) == BootMode(answer)
  {
    assert Upper("UEFI") == "UEFI";
    assert Upper("LEGACY") == "LEGACY";
  }

  /** Any casing of `legacy` selects LEGACY; an empty or unknown answer selects UEFI. */
  lemma BootModeExamples()
    ensures BootMode("legacy") == "LEGACY"
    ensures BootMode("Uefi") == "UEFI"
    ensures BootMode("") == "UEFI"
    ensures BootMode("bios") == "UEFI"
  {
    assert Upper("legacy") == "LEGACY";
    assert Upper("Uefi") == "UEFI";
    assert Upper("") == "";
    assert Upper("bios") == "BIOS";
  }

  /** The confirmation is exactly the three letters y, e, s, each in either case. */
  lemma ConfirmedMeaning(answer: string)
    ensures Confirmed(answer) <==>
      |answer| == 3 &&
      (answer[0] == 'y' || answer[0] == 'Y') &&
      (answer[1] == 'e' || answer[1] == 'E') &&
      (answer[2] == 's' || answer[2] == 'S')
  {
    if |answer| == 3 {
      var u := Upper(answer);
      assert u[0] == UpperChar(answer[0]) && u[1] == UpperChar(answer[1]) && u[2] == UpperChar(answer[2]);
      assert u == "YES" <==> u[0] == 'Y' && u[1] == 'E' && u[2] == 'S';
    }
  }

  // ---------------------------------------------------------------------
  // When the disk is written.
  // ---------------------------------------------------------------------

  /**
   * `make_usb_bootable` is called exactly when the image exists, disks were
   * found and all their ids parse, the selection is a number in range and
   * the confirmation is YES; it is called with the selected disk's index
   * and the normalised boot mode.
   */
  lemma ProvisionOnlyWhenConfirmed(inp: Inputs)
    ensures Decide(inp).Provision? <==>
      && inp.imageExists && inp.disks != [] && AllIndicesParse(inp.disks)
      && ParseInt(inp.choice).Some?
      && 0 <= ParseInt(inp.choice).value < |inp.disks|
      && Confirmed(inp.confirm)
    ensures Decide(inp).Provision? ==>
      && DiskIndexOf(inp.disks[ParseInt(inp.choice).value].deviceId) == Some(Decide(inp).diskIndex)
      && Decide(inp).bootMode == BootMode(inp.modeAnswer)
  {
    if inp.imageExists && inp.disks != [] && AllIndicesParse(inp.disks) && ParseInt(inp.choice).Some? {
      var c := ParseInt(inp.choice).value;
      if 0 <= c < |inp.disks| {
        assert DiskIndexOf(inp.disks[c].deviceId).Some?;
      }
    }
  }

  /**
   * The second parse of the selected disk's id cannot fail: the listing
   * loop parsed it already, so the ValueError handler is reached only by a
   * selection that is not a number.
   */
  lemma NotANumberOnlyFromSelection(inp: Inputs)
    ensures Decide(inp) == NotANumber <==>
      inp.imageExists && inp.disks != [] && AllIndicesParse(inp.disks) && ParseInt(inp.choice).None?
  {
    if inp.imageExists && inp.disks != [] && AllIndicesParse(inp.disks) && ParseInt(inp.choice).Some? {
      var c := ParseInt(inp.choice).value;
      if 0 <= c < |inp.disks| {
        assert DiskIndexOf(inp.disks[c].deviceId).Some?;
      }
    }
  }

  /**
   * The success banner is printed exactly when the disk was to be written
   * and `make_usb_bootable` reached the copy and the copy returned; it names
   * the mode the disk was prepared for.
   */
  lemma SuccessMeaning(inp: Inputs, env: Orchestrator.Environment, rule: IsoProbe.SkipRule)
    ensures MainEnding(inp, env, rule).Succeeded? <==>
      Decide(inp).Provision? && Orchestrator.CopyReached(env, ProbeOf(rule, env)) && !env.copyRaises
    ensures MainEnding(inp, env, rule).Succeeded? ==> MainEnding(inp, env, rule).bootMode == BootMode(inp.modeAnswer)
  {
    var d := Decide(inp);
    if d.Provision? {
      var script := Diskpart.BuildScript(d.diskIndex, d.bootMode);
      var iso := ProbeOf(rule, env);
      assert MainEnding(inp, env, rule) == Report(Orchestrator.Flow(script, inp.image, env, iso).outcome, d.bootMode);
      ReportMeaning(script, inp.image, env, iso, d.bootMode);
      ProvisionOnlyWhenConfirmed(inp);
    } else {
      assert MainEnding(inp, env, rule) == Stopped(d);
    }
  }

  /** Whatever the script, the success banner means the copy was reached and returned. */
  lemma ReportMeaning(script: seq<string>, image: string, env: Orchestrator.Environment, iso: Option<string>, mode: string)
    ensures var e := Report(Orchestrator.Flow(script, image, env, iso).outcome, mode);
      (e.Succeeded? <==> Orchestrator.CopyReached(env, iso) && !env.copyRaises) &&
      (e.Succeeded? ==> e.bootMode == mode)
  {
    Orchestrator.OutcomeMeaning(script, image, env, iso);
  }

  /** A disk listed as `\\.\PHYSICALDRIVEn` and selected and confirmed is provisioned as disk `n`. */
  lemma SelectedDiskIndex(inp: Inputs, n: int)
    requires inp.imageExists && AllIndicesParse(inp.disks)
    requires ParseInt(inp.choice).Some? && 0 <= ParseInt(inp.choice).value < |inp.disks|
    requires inp.disks[ParseInt(inp.choice).value].deviceId == DevicePrefix + IntToString(n)
    requires Confirmed(inp.confirm)
    ensures Decide(inp) == Provision(n, BootMode(inp.modeAnswer))
  {
    DeviceIdRoundTrip(n);
  }
}
