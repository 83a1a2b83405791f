/**
 * The control flow of `make_usb_bootable`: write the diskpart script, run
 * it, remove it, mount the image, find the mounted drive, wait for `Z:\`,
 * copy, and dismount. The external programs and the file-system checks are
 * inputs, given by how each one turns out; the result is what the function
 * returns (or that it raises) together with the trace of actions taken.
 */
module Orchestrator {
  import opened Wrappers
  import Diskpart
  import IsoProbe

  const TargetRoot := "Z:\\"

  /** How a `subprocess.run(..., check=True)` call turns out. */
  datatype Status = Succeeded | Failed | Crashed

  /** The outcomes of the steps outside the program. */
  datatype Environment = Environment(
    diskpart: Status,           // `diskpart /s script`
    mount: Status,              // `Mount-DiskImage`
    home: Option<string>,       // the HOMEDRIVE variable
    view: IsoProbe.DriveView,   // what the probe sees once the image is mounted
    targetAtFirst: bool,        // `Z:\` exists at the first check
    targetAtSecond: bool,       // `Z:\` exists five seconds later
    copyRaises: bool)           // `tqdm_copy_recursive` raises

  datatype Action =
    | WriteScript(lines: seq<string>)
    | RunDiskpart
    | RemoveScript
    | MountImage(image: string)
    | ProbeIso
    | CheckTarget
    | MakeTargetDir
    | CopyTree(from: string, to: string)
    | DismountImage(image: string)

  /** What the call ends with: a returned boolean, or an exception passed to the caller. */
  datatype Outcome = Returned(ok: bool) | Raised

  /** The result together with the actions taken, in order. */
  datatype Run = Run(outcome: Outcome, trace: seq<Action>)

  predicate IsCopy(a: Action) {
    a.CopyTree?
  }

  /** The copy the run reaches, given the environment and the drive the probe returns. */
  predicate CopyReached(env: Environment, iso: Option<string>) {
    env.diskpart == Succeeded && env.mount == Succeeded &&
    iso.Some? &&
    (env.targetAtFirst || env.targetAtSecond)
  }

  /** The checks of `Z:\`: one, and a second after the wait when the first finds nothing. */
  function TargetChecks(env: Environment): seq<Action> {
    if env.targetAtFirst then [CheckTarget] else [CheckTarget, CheckTarget]
  }

  /** The script is written, run by diskpart and removed in the `finally`. */
  function Opening(script: seq<string>): seq<Action> {
    [WriteScript(script), RunDiskpart, RemoveScript]
  }

  /** The steps taken while the image is mounted: probe, check `Z:\`, copy. */
  function WhileMounted(iso: Option<string>, env: Environment): Run {
    if iso.None? then Run(Returned(false), [ProbeIso])
    else if !(env.targetAtFirst || env.targetAtSecond) then Run(Returned(false), [ProbeIso] + TargetChecks(env))
    else Run(Returned(!env.copyRaises), [ProbeIso] + TargetChecks(env) + [MakeTargetDir, CopyTree(iso.value, TargetRoot)])
  }

  /** The steps after the script is removed, when the probe would return `iso`. */
  function AfterScript(image: string, env: Environment, iso: Option<string>): Run {
    if env.diskpart != Succeeded then
      Run(if env.diskpart == Failed then Returned(false) else Raised, [])
    else if env.mount != Succeeded then
      Run(if env.mount == Failed then Returned(false) else Raised, [MountImage(image)])
    else
      var m := WhileMounted(iso, env);
      Run(m.outcome, [MountImage(image)] + m.trace + [DismountImage(image)])
  }

  /**
   * The run of `make_usb_bootable` that writes `script`, step by step as the
   * source orders them, when the probe returns `iso` once the image is mounted.
   */
  function Flow(script: seq<string>, image: string, env: Environment, iso: Option<string>): Run {
    var rest := AfterScript(image, env, iso);
    Run(rest.outcome, Opening(script) + rest.trace)
  }

  /**
   * `make_usb_bootable`, with the outcomes of its external steps given by
   * `env`; `rule` is the probe's home-drive comparison, `AsWritten` for the
   * source itself.
   */
  method MakeUsbBootable(diskIndex: int, image: string, bootMode: string, env: Environment, rule: IsoProbe.SkipRule)
    returns (r: Outcome, trace: seq<Action>)
    ensures Run(r, trace) == Flow(Diskpart.BuildScript(diskIndex, bootMode), image, env, IsoProbe.Probe(rule, env.home, env.view))
  {
    var script := Diskpart.BuildScript(diskIndex, bootMode);
    var opening := [WriteScript(script), RunDiskpart, RemoveScript];
    if env.diskpart != Succeeded {
      // the `finally` has removed the script; a failure returns, a crash propagates
      r := if env.diskpart == Failed then Returned(false) else Raised;
      trace := opening + [];
      return;
    }
    if env.mount != Succeeded {
      r := if env.mount == Failed then Returned(false) else Raised;
      trace := opening + [MountImage(image)];
      return;
    }
    var drive := IsoProbe.GetIsoDriveLetter(rule, env.home, env.view);
    var mounted := [ProbeIso];
    if drive.None? {
      r := Returned(false);
    } else {
      var checks := [CheckTarget];
      var present := env.targetAtFirst;
      if !present {
        // wait, then look once more
        checks := checks + [CheckTarget];
        present := env.targetAtSecond;
      }
      assert checks == TargetChecks(env);
      mounted := mounted + checks;
      if !present {
        r := Returned(false);
      } else {
        mounted := mounted + [MakeTargetDir, CopyTree(drive.value, TargetRoot)];
        r := if env.copyRaises then Returned(false) else Returned(true);
      }
    }
    // the `finally` of the copy block: the dismount is attempted on every path
    trace := opening + ([MountImage(image)] + mounted + [DismountImage(image)]);
  }

  // ---------------------------------------------------------------------
  // Guarantees of the run.
  // ---------------------------------------------------------------------

  /** An action of the mounted phase. */
  predicate MountedStep(a: Action) {
    a == ProbeIso || a == CheckTarget || a == MakeTargetDir || a.CopyTree?
  }

  /** An action other than writing, running or removing the script. */
  predicate Later(a: Action) {
    !a.WriteScript? && a != RunDiskpart && a != RemoveScript
  }

  /**
   * While mounted the run only probes, checks `Z:\` (at offset 1, and at
   * offset 2 only when the first check found nothing) and copies; it copies
   * exactly when the probe found a drive and `Z:\` appeared, from that
   * drive to `Z:\`, as its last step and right after making sure `Z:\` exists.
   */
  lemma WhileMountedShape(iso: Option<string>, env: Environment)
    ensures var t := WhileMounted(iso, env).trace;
      && |t| >= 1 && t[0] == ProbeIso
      && (forall a :: a in t ==> MountedStep(a))
      && (forall i :: 0 <= i < |t| && t[i] == CheckTarget ==> i == 1 || (i == 2 && !env.targetAtFirst))
      && ((exists a :: a in t && IsCopy(a)) <==> iso.Some? && (env.targetAtFirst || env.targetAtSecond))
      && (iso.Some? && (env.targetAtFirst || env.targetAtSecond) ==>
            |t| >= 2 && t[|t| - 2] == MakeTargetDir && t[|t| - 1] == CopyTree(iso.value, TargetRoot))
  {
    var t := WhileMounted(iso, env).trace;
    if iso.Some? && (env.targetAtFirst || env.targetAtSecond) {
      assert IsCopy(t[|t| - 1]);
    }
  }

  /** After the script is removed, it is never written, run or removed again. */
  lemma AfterScriptLater(image: string, env: Environment, iso: Option<string>)
    ensures forall a :: a in AfterScript(image, env, iso).trace ==> Later(a)
  {
    if env.diskpart == Succeeded && env.mount == Succeeded {
      var m := WhileMounted(iso, env).trace;
      WhileMountedShape(iso, env);
      var rest := AfterScript(image, env, iso).trace;
      assert rest == [MountImage(image)] + m + [DismountImage(image)];
      forall a | a in rest
        ensures Later(a)
      {
        if a in m {
          assert MountedStep(a);
        }
      }
    }
  }

  /** The script is written, run by diskpart and removed, whatever diskpart does, and none of it again. */
  lemma ScriptAlwaysRemoved(script: seq<string>, image: string, env: Environment, iso: Option<string>)
    ensures var t := Flow(script, image, env, iso).trace;
      |t| >= 3 && t[..3] == [WriteScript(script), RunDiskpart, RemoveScript] &&
      forall i :: 3 <= i < |t| ==> Later(t[i])
  {
    var rest := AfterScript(image, env, iso).trace;
    var t := Flow(script, image, env, iso).trace;
    assert t == Opening(script) + rest;
    assert t[..3] == Opening(script);
    AfterScriptLater(image, env, iso);
    forall i | 3 <= i < |t|
      ensures Later(t[i])
    {
      assert t[i] == rest[i - 3];
      assert rest[i - 3] in rest;
    }
  }

  /**
   * A failed or crashed diskpart ends the run right after the script is
   * removed; a failed or crashed mount ends it right after the mount: in
   * both cases before any copy, and with no dismount.
   */
  lemma FailureBeforeCopy(script: seq<string>, image: string, env: Environment, iso: Option<string>)
    ensures var run := Flow(script, image, env, iso);
      && (env.diskpart != Succeeded ==>
            |run.trace| == 3 && run.outcome == (if env.diskpart == Failed then Returned(false) else Raised))
      && (env.diskpart == Succeeded ==> |run.trace| >= 4 && run.trace[3] == MountImage(image))
      && (env.diskpart == Succeeded && env.mount != Succeeded ==>
            |run.trace| == 4 && run.outcome == (if env.mount == Failed then Returned(false) else Raised))
  {
    var rest := AfterScript(image, env, iso).trace;
    assert Flow(script, image, env, iso).trace == Opening(script) + rest;
  }

  /**
   * With the image mounted, the trace is the opening, the mount, the
   * mounted phase and the dismount.
   */
  lemma MountedTrace(script: seq<string>, image: string, env: Environment, iso: Option<string>)
    requires env.diskpart == Succeeded && env.mount == Succeeded
    ensures var t := Flow(script, image, env, iso).trace;
      var m := WhileMounted(iso, env).trace;
      |t| == |m| + 5 && t[|t| - 1] == DismountImage(image) && t[3] == MountImage(image) &&
      forall i :: 4 <= i < |t| - 1 ==> t[i] == m[i - 4]
  {
    var m := WhileMounted(iso, env).trace;
    var t := Flow(script, image, env, iso).trace;
    assert t == Opening(script) + ([MountImage(image)] + m + [DismountImage(image)]);
  }

  /** Once the image is mounted, every path ends with its dismount, and there is no earlier one. */
  lemma DismountOnEveryPath(script: seq<string>, image: string, env: Environment, iso: Option<string>)
    ensures var t := Flow(script, image, env, iso).trace;
      (forall i :: 0 <= i < |t| - 1 ==> !t[i].DismountImage?) &&
      (t[|t| - 1].DismountImage? <==> env.diskpart == Succeeded && env.mount == Succeeded) &&
      (env.diskpart == Succeeded && env.mount == Succeeded ==> t[|t| - 1] == DismountImage(image))
  {
    var t := Flow(script, image, env, iso).trace;
    assert t == Opening(script) + AfterScript(image, env, iso).trace;
    if env.diskpart == Succeeded && env.mount == Succeeded {
      var m := WhileMounted(iso, env).trace;
      WhileMountedShape(iso, env);
      MountedTrace(script, image, env, iso);
      forall i | 4 <= i < |t| - 1
        ensures !t[i].DismountImage?
      {
        assert m[i - 4] in m;
      }
    }
  }

  /** `Z:\` is checked at most twice, the second time only when the first found nothing. */
  lemma TargetCheckedAtMostTwice(script: seq<string>, image: string, env: Environment, iso: Option<string>)
    ensures var t := Flow(script, image, env, iso).trace;
      forall i :: 0 <= i < |t| && t[i] == CheckTarget ==> i == 5 || (i == 6 && !env.targetAtFirst)
  {
    var t := Flow(script, image, env, iso).trace;
    assert t == Opening(script) + AfterScript(image, env, iso).trace;
    if env.diskpart == Succeeded && env.mount == Succeeded {
      WhileMountedShape(iso, env);
      MountedTrace(script, image, env, iso);
    }
  }

  /**
   * The copy runs exactly when diskpart and the mount went through, the
   * probe found a drive and `Z:\` appeared within the two checks; it copies
   * from the probed drive to `Z:\`, right after `Z:\` is made sure to exist.
   */
  lemma CopyOnlyWhenReady(script: seq<string>, image: string, env: Environment, iso: Option<string>)
    ensures var t := Flow(script, image, env, iso).trace;
      && ((exists i :: 0 <= i < |t| && IsCopy(t[i])) <==> CopyReached(env, iso))
      && (CopyReached(env, iso) ==>
            && t[|t| - 3] == MakeTargetDir
            && t[|t| - 2] == CopyTree(iso.value, TargetRoot))
  {
    var t := Flow(script, image, env, iso).trace;
    assert t == Opening(script) + AfterScript(image, env, iso).trace;
    if env.diskpart == Succeeded && env.mount == Succeeded {
      var m := WhileMounted(iso, env).trace;
      WhileMountedShape(iso, env);
      MountedTrace(script, image, env, iso);
      if CopyReached(env, iso) {
        assert IsCopy(t[|t| - 2]);
      } else {
        forall i | 0 <= i < |t|
          ensures !IsCopy(t[i])
        {
          if 4 <= i < |t| - 1 {
            assert m[i - 4] in m;
          }
        }
      }
    }
  }

  /**
   * True is returned only after a copy that returned; an exception reaches
   * the caller only from the diskpart or mount step.
   */
  lemma OutcomeMeaning(script: seq<string>, image: string, env: Environment, iso: Option<string>)
    ensures var r := Flow(script, image, env, iso).outcome;
      && (r == Returned(true) <==> CopyReached(env, iso) && !env.copyRaises)
      && (r == Raised <==> env.diskpart == Crashed || (env.diskpart == Succeeded && env.mount == Crashed))
  {
  }

  /**
   * The script the run writes provisions the selected disk when no other
   * disk holds Z: one partition, formatted and lettered Z, as the boot mode
   * asks.
   */
  lemma WrittenScriptProvisions(disks: map<int, Diskpart.Disk>, diskIndex: int, image: string, bootMode: string,
                                env: Environment, iso: Option<string>)
    requires diskIndex in disks && Diskpart.LetterFree(disks, diskIndex, 'Z')
    ensures var t := Flow(Diskpart.BuildScript(diskIndex, bootMode), image, env, iso).trace;
      && t[0].WriteScript?
      && Diskpart.Run(Diskpart.Start(disks), t[0].lines) ==
         Some(Diskpart.Session(disks[diskIndex := Diskpart.Provisioned(bootMode)], Some(diskIndex), Some(0), true))
  {
    Diskpart.ProvisionEffect(disks, diskIndex, bootMode);
  }

  /**
   * With HOMEDRIVE `D:` and the image mounted on `D:\`, the only drive with
   * `sources`, the run as written copies from the home drive and returns
   * True, while with the intended skip it finds no image and returns False.
   */
  lemma HomeDriveImageCopiedAsWritten(script: seq<string>, image: string, env: Environment)
    requires env.diskpart == Succeeded && env.mount == Succeeded && env.targetAtFirst && !env.copyRaises
    requires env.home == Some("D:") && IsoProbe.Qualifies(env.view, "D:\\")
    requires forall c :: IsoProbe.Qualifies(env.view, IsoProbe.DriveRoot(c)) ==> c == 'D'
    ensures var written := Flow(script, image, env, IsoProbe.Probe(IsoProbe.AsWritten, env.home, env.view));
      written.outcome == Returned(true) && CopyTree("D:\\", TargetRoot) in written.trace
    ensures Flow(script, image, env, IsoProbe.Probe(IsoProbe.Intended, env.home, env.view)).outcome == Returned(false)
  {
    IsoProbe.HomeDriveReturnedAsWritten(env.home, env.view);
    IsoProbe.HomeDriveNotReturned(env.home, env.view);
    var iso := Some("D:\\");
    var t := Flow(script, image, env, iso).trace;
    MountedTrace(script, image, env, iso);
    WhileMountedShape(iso, env);
    assert t[|t| - 2] == CopyTree("D:\\", TargetRoot);
  }
}
