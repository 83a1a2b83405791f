# nicepro.py in Dafny

This is a model of the decision logic in `nicepro.py`, a Windows script that
turns an ISO image into a bootable USB drive. It does five things:

1. Lists the external disks through WMI.
2. Asks the user for a disk, a boot mode (UEFI or LEGACY) and a `YES`
   confirmation.
3. Writes a diskpart script that wipes, partitions, formats and letters the
   disk `Z:`.
4. Mounts the image and finds the drive letter it was mounted on.
5. Copies the image's files to `Z:\` with a byte-based progress bar.

Every program, library and console step outside the script is an input to
the model: WMI, diskpart, PowerShell, the file system and the answers typed.

The modules follow the script's functions:

| file | module | models |
|---|---|---|
| `diskpart.dfy` | `Diskpart` | the script `make_usb_bootable` writes, plus a reference reading of what those diskpart commands do to a disk |
| `inventory.dfy` | `Inventory` | `get_external_disks`: the external-disk filter and its nested partition loops |
| `iso_probe.dfy` | `IsoProbe` | `get_iso_drive_letter`: the first-match scan over `C:` to `Z:` |
| `copier.dfy` | `Copier` | `tqdm_copy_recursive`: the pre-scan, the destination volume and the progress bar as classes, and the 64 KiB chunk loop |
| `orchestrator.dfy` | `Orchestrator` | the control flow of `make_usb_bootable` as the trace of actions it takes |
| `cli.dfy` | `Cli` | `main`: device-id parsing, the selection check, boot-mode normalisation, the confirmation, and what the program ends with |
| `text.dfy` | `Text` | the Python string operations used: `upper`, `in`, `split(..)[-1]`, `replace(.., '')`, `str` and `int` |
| `seqs.dfy` | `Seqs` | filter and map on sequences |
| `wrappers.dfy` | `Wrappers` | `Option` |

Each imperative loop of the source is a method with loop invariants, proved
equal to a specification function. The script's promises are then proved
as lemmas about those functions:

- `Inventory.GetExternalDisks` equals `Inventory.ExternalDisks`.
- `IsoProbe.GetIsoDriveLetter` equals `IsoProbe.Probe`.
- `Copier.CopyRecursive` equals `Copier.ScanTotal` and `Copier.RunFiles`.
- `Orchestrator.MakeUsbBootable` equals `Orchestrator.Flow`.

Where the model departs from the code, or on purpose from the code's own
documentation:

- The home-drive skip in `get_iso_drive_letter` does not work as written
  (see Findings). The probe therefore takes its home-drive comparison as a
  parameter, `IsoProbe.SkipRule`. `AsWritten` makes exactly the source's
  comparisons; `Intended` also matches the home root with its backslash.
  `Orchestrator.MakeUsbBootable` and `Cli.MainEnding` take the rule too, so
  the program as written and the corrected program are both modelled.
- The orchestration's lemmas are stated for any drive the probe returns:
  `Orchestrator.Flow` takes the probe's result as a parameter.
- Script lines are modelled without their trailing newline.

## Model

| member | source | states |
|---|---|---|
| Diskpart.BuildScript | nicepro.py:162-177 | the script's lines in the order they are written; no contract of its own, characterised by the three lemmas below |
| Diskpart.ScriptFrame | nicepro.py:162-164 | every script starts `select disk <n>`, where `<n>` parses back to the requested index, then `clean`, and ends `assign letter=Z`, `exit` |
| Diskpart.UefiSteps | nicepro.py:166-169 | in UEFI mode, exactly `convert gpt`, `create partition primary`, `format fs=fat32 quick` come between `clean` and `assign`, in that order |
| Diskpart.LegacySteps | nicepro.py:170-174 | in any other mode, exactly `create partition primary`, `select partition 1`, `active`, `format fs=ntfs quick` come there, and `convert gpt` never appears |
| Diskpart.ProvisionEffect | nicepro.py:162-177 | run against any set of disks that contains the index and where no other disk's volume holds Z, the script succeeds and leaves that disk as one partition lettered Z: GPT with a FAT32 volume in UEFI mode, an active MBR partition with NTFS otherwise; every other disk is left unchanged |
| Diskpart.RunUpToFormat | nicepro.py:163-174 | up to the `format` line, the script selects the disk, wipes it, and leaves one blank partition in focus: on GPT for UEFI, marked active on MBR otherwise; no other disk changes |
| Diskpart.LetterTakenRejected | nicepro.py:162-177 | when a volume of another disk already holds Z, the script is refused at `assign letter=Z`, after `clean` has wiped the disk |
| Diskpart.ScriptAccepted | nicepro.py:162-177 | the script runs to its end exactly when the disk exists and no other disk's volume holds Z |
| Diskpart.MissingDiskRejected | nicepro.py:163 | for an index that names no disk, the script is rejected at its first line |
| Inventory.GetExternalDisks | nicepro.py:97-135 | a failed WMI connection gives the empty list; otherwise the method's loop returns exactly `ExternalDisks` of the enumeration |
| Inventory.CollectPartitions | nicepro.py:125-133 | the nested partition and logical-disk loops return the local fixed volumes behind the disk's partitions, in association order |
| Inventory.ExternalDisksFromEnumeration | nicepro.py:106-134 | the result describes, in enumeration order, the disks that are on no internal bus and carry a vendor marker, and every such disk |
| Inventory.InternalBusExcluded | nicepro.py:104-112 | a disk whose upper-cased interface type is SATA, IDE or NVME is never listed |
| Inventory.NoVendorMarkerExcluded | nicepro.py:114-117 | a disk whose upper-cased plug-and-play id contains neither VEN nor VID is never listed |
| Inventory.EmptyInterfaceTypeKept | nicepro.py:109 | a missing or empty interface type does not drop a disk; the vendor marker alone decides |
| Inventory.KeptPartitionsAreLocalFixed | nicepro.py:125-133 | a listed disk's partitions are exactly its logical disks with DriveType 3, in order, each with its id, label, file system and size (0 when none is given) |
| Inventory.UsbStickKept | nicepro.py:109-117 | a USB disk with a `VEN_` id is listed |
| Inventory.NvmeDropped | nicepro.py:109-112 | a disk reporting `nvme`, in any case, is dropped even with a vendor id |
| Inventory.StorageSpaceDropped | nicepro.py:114-117 | a disk with no interface type and no vendor marker is dropped |
| IsoProbe.Probe | nicepro.py:141-153 | the first root in C..Z order that is not skipped by the rule, exists and has `sources`, or none; no contract of its own, characterised by `FirstMatchIsFirst` and the lemmas below |
| IsoProbe.GetIsoDriveLetter | nicepro.py:141-153 | the probing loop, with its `continue` and early return, gives exactly `Probe` under the rule it is given; under `AsWritten` its skip test is the one of line 144 |
| IsoProbe.FirstMatchIsFirst | nicepro.py:141-153 | the search returns no drive exactly when no letter is eligible; otherwise it returns the root of an eligible letter with no eligible letter before it |
| IsoProbe.NeverSystemOrHome | nicepro.py:144-150 | under either rule, a returned root exists, has a `sources` directory, and is neither `C:\` nor the HOMEDRIVE text; under `Intended`, it is not the home drive with its backslash either |
| IsoProbe.HomeDriveSkipped | nicepro.py:144 | under `Intended`, with HOMEDRIVE `X:`, the root `X:\` is never returned, whatever the letter's case |
| IsoProbe.HomeDriveReturnedAsWritten | nicepro.py:144 | as written, with HOMEDRIVE `D:` and an image on `D:\`, the probe returns the home drive `D:\` |
| IsoProbe.HomeDriveNotReturned | nicepro.py:144-153 | under `Intended`, HOMEDRIVE `D:` and only `D:\` qualifying, the probe returns no drive |
| IsoProbe.AgreeOnSystemHome | nicepro.py:144 | when HOMEDRIVE is unset or is `C:`, the two rules give the same probe |
| Copier.ChunkSizesSpec | nicepro.py:71-78 | the reads of a file are non-empty, at most 65536 bytes, all full except the last, add up to the file's size, and there are ceil(size / 65536) of them |
| Copier.TakeChunksSum | nicepro.py:72-78 | after `k` chunks, min(k * 65536, size) bytes have been written |
| Copier.ProgressBar.Update | nicepro.py:63 | `update(k)` adds `k` to the counter and records it |
| Copier.Volume.Create | nicepro.py:70 | opening the destination with `wb` leaves an empty file; nothing else changes |
| Copier.Volume.Append | nicepro.py:76 | a write appends the chunk to the open file |
| Copier.Volume.MakeDirs | nicepro.py:54 | `makedirs` adds the directory and changes no file |
| Copier.PreScan | nicepro.py:32-43 | the first walk's total is the sum of the sizes of the listed readable files that are not symbolic links |
| Copier.ScanEntry | nicepro.py:36-43 | the pre-scan's loop over one directory's files adds to the running total exactly the sizes of its readable files that are not symbolic links |
| Copier.WriteChunks | nicepro.py:70-78 | the chunk loop writes the file's chunks in order and counts each one; with a fault after `k` chunks, it writes and counts only the first `k` and reports the failure |
| Copier.FileStep | nicepro.py:61-90 | one file's iteration as a function of the destination: skip, unreadable source, clean copy, and the two failure kinds; no contract of its own, characterised by `FileStepCases` and `FileStepBounds` |
| Copier.CopyFile | nicepro.py:56-90 | one file's iteration leaves the destination and the counter's updates as `FileStep` says, covering the skip, the unreadable source, the open failure, the mid-copy failure, and the clean and `copystat`-failing copies |
| Copier.CopyTree | nicepro.py:48-90 | the copy phase creates every walked directory and leaves the files and updates as `RunFiles` over the listing |
| Copier.CopyRecursive | nicepro.py:28-91 | the bar's total is the pre-scan total; the destination and the counter are those of the file loop over the walk's listing |
| Copier.FileStepCases | nicepro.py:61-90 | a same-size destination is left as it is and counted at the source's size; an unreadable source changes nothing and counts nothing; a clean copy makes the destination byte-equal to the source and counts its chunks; a failure counts the whole size as its last update; no other file changes |
| Copier.FailureAfterChunksOvershoots | nicepro.py:72-87 | a write failing after `k` chunks keeps the bytes written and counts them twice, so the counter passes the pre-scan's share of the file |
| Copier.FailureBeforeWriteCounted | nicepro.py:69-87 | a destination that cannot be opened is left as it was, and the file is counted once at its size |
| Copier.FileStepBounds | nicepro.py:61-90 | one file adds at least its pre-scan size and at most twice its size; without a fault or link it adds exactly its pre-scan size |
| Copier.LinkCountedBeyondTotal | nicepro.py:32-78 | a symbolic link is copied and counted although the pre-scan left it out |
| Copier.ProgressCoversTotal | nicepro.py:32-90 | the final counter is at least the pre-scan total and at most twice the bytes of the listed readable files |
| Copier.CleanRunReachesTotal | nicepro.py:32-78 | with no failures and no symbolic links, the final counter equals the pre-scan total |
| Copier.ProgressNeverDecreases | nicepro.py:61-87 | the updates so far are a prefix of the final ones, so the counter never goes back |
| Copier.UnlistedUntouched | nicepro.py:56-90 | destination files outside the listing are neither created nor changed |
| Copier.CleanRunSizes | nicepro.py:69-78 | after a run with no failures, every listed readable file is at the destination with the source's size |
| Copier.SameSizesUnchanged | nicepro.py:62-64 | when every listed readable file already has its size at the destination, the run changes nothing |
| Copier.SecondRunSkipsAll | nicepro.py:62-64 | a second run after a run with no failures skips every file, and without links its counter again reaches the total exactly |
| Copier.CopyOntoEmpty | nicepro.py:69-78 | with no failures and none of the listed files at the destination, each listed readable file gets the source's bytes |
| Copier.CreatedOnlyListed | nicepro.py:56-78 | a destination file the run creates is a listed, readable source file |
| Copier.MirrorsDirectories | nicepro.py:48-54 | the directories created are exactly those the walk visits |
| Copier.ListingOfWalk | nicepro.py:48-58 | the files copied are exactly the walk's files, each under its directory |
| Copier.TwoFileExample | nicepro.py:28-91 | files of 100 and 200 bytes copied onto an empty volume give a total of 300, a counter of 300, both files and both directories |
| Orchestrator.Flow | nicepro.py:179-235 | the outcome and the trace of actions of a run, given the external outcomes and the drive the probe returns; no contract of its own, characterised by the lemmas below |
| Orchestrator.MakeUsbBootable | nicepro.py:156-235 | the control flow with its early returns and `finally` blocks gives exactly `Flow` with the probe's answer under the given rule: the same outcome and the same trace of actions |
| Orchestrator.ScriptAlwaysRemoved | nicepro.py:162-190 | the script is written, run and removed whether diskpart succeeds, fails or raises, and none of those three happens again |
| Orchestrator.FailureBeforeCopy | nicepro.py:182-202 | a diskpart failure returns False and a diskpart crash raises, both right after the removal; a mount failure or crash does the same right after the mount; in both cases there is no copy and no dismount |
| Orchestrator.DismountOnEveryPath | nicepro.py:204-235 | once the mount succeeds, every path ends with the dismount, and no dismount happens earlier; without a mount there is none |
| Orchestrator.TargetCheckedAtMostTwice | nicepro.py:212-217 | `Z:\` is checked at most twice, the second time only when the first check found nothing |
| Orchestrator.CopyOnlyWhenReady | nicepro.py:206-223 | a copy happens exactly when diskpart and the mount succeed, the probe finds a drive and `Z:\` appears within the two checks; it copies from the probed drive to `Z:\`, right after `makedirs` |
| Orchestrator.OutcomeMeaning | nicepro.py:182-229 | True is returned exactly when the copy was reached and returned; an exception reaches the caller only from a diskpart or mount crash |
| Orchestrator.WrittenScriptProvisions | nicepro.py:162-183 | the script the run writes and hands to diskpart provisions the selected disk when no other disk holds Z |
| Orchestrator.HomeDriveImageCopiedAsWritten | nicepro.py:141-226 | with HOMEDRIVE `D:` and the image on `D:\` only, the program as written copies from `D:\` and returns True, while with the intended skip it returns False |
| Orchestrator.WhileMountedShape | nicepro.py:206-223 | while mounted, the run only probes, checks `Z:\` and copies, and it copies exactly when a drive was found and `Z:\` appeared |
| Cli.DeviceIdRoundTrip | nicepro.py:258 | `\\.\PHYSICALDRIVE` followed by `str(n)` parses back to `n`, for every integer `n` |
| Cli.LowerCaseIdRejected | nicepro.py:258 | the word is removed case-sensitively, so `\\.\physicaldrive<n>` gives no index |
| Cli.LowerCaseSegmentRejected | nicepro.py:258 | an id `\\.\<t>`, where `<t>` starts with a lower-case letter and holds no capital P and no backslash, gives no index |
| Cli.BareWordRejected | nicepro.py:258 | an id ending in `PHYSICALDRIVE` with no number gives `int('')`, which raises |
| Cli.ListDiskIndices | nicepro.py:257-258 | the listing loop succeeds exactly when every disk's id parses, and then gives each disk's index in order |
| Cli.BootMode | nicepro.py:278-280 | the mode is UEFI or LEGACY; it is LEGACY exactly when the upper-cased answer is LEGACY, so an empty or unknown answer means UEFI |
| Cli.BootModeIdempotent | nicepro.py:278-280 | normalising the mode a second time changes nothing |
| Cli.BootModeExamples | nicepro.py:278-280 | `legacy` gives LEGACY; `Uefi`, the empty answer and `bios` give UEFI |
| Cli.ConfirmedMeaning | nicepro.py:285 | the confirmation holds exactly for the three letters y, e, s, each in either case |
| Cli.ProvisionOnlyWhenConfirmed | nicepro.py:245-287 | the disk is written exactly when the image exists, some disk was found, every id parses, the selection is an integer in `0 <= choice < len(drives)` and the confirmation is YES; it is called with the selected disk's index and the normalised mode |
| Cli.NotANumberOnlyFromSelection | nicepro.py:273-300 | the "not a valid number" handler is reached only when the selection is not an integer; the second parse at line 276 cannot fail |
| Cli.DiskIndexOf | nicepro.py:258 | the index behind a device id, or none where `int` raises; no contract of its own, characterised by the device-id lemmas below |
| Cli.Decide | nicepro.py:245-287 | where `main` goes before any disk is written, checking in the source's order; no contract of its own, characterised by `ProvisionOnlyWhenConfirmed` and `NotANumberOnlyFromSelection` |
| Cli.MainEnding | nicepro.py:245-302 | how `main` ends, given its inputs, the external outcomes and the probe's rule; no contract of its own, characterised by `SuccessMeaning` |
| Cli.Report | nicepro.py:287-302 | the banner for what `make_usb_bootable` ended with: success for True, failure for False, the last handler for an exception; no contract of its own |
| Cli.SuccessMeaning | nicepro.py:284-294 | under either rule, the success banner is printed exactly when the disk was to be written and `make_usb_bootable` reached and finished the copy; it names the selected mode |
| Cli.SelectedDiskIndex | nicepro.py:273-287 | selecting and confirming a disk listed as `\\.\PHYSICALDRIVE<n>` writes disk `n` |
| Text.IntRoundTrip | nicepro.py:258 | `int(str(n)) == n` for every integer |
| Text.ParsePrintRoundTrip | nicepro.py:258 | `str(int(s)) == s` for every text `str` can produce |
| Text.LastSegment | nicepro.py:258 | `split(sep)[-1]` is a suffix without `sep`, preceded by `sep` when shorter than the text |

## Left out

- WMI access (nicepro.py:98-102, 106, 125-126). The enumeration is an input sequence of disk records. A WMI row's `PNPDeviceID` is assumed to be a string; a missing one would make `upper()` raise.
- Elevation through ctypes and `ShellExecute` (nicepro.py:12-25, 240-243). These are operating-system calls with no decision logic.
- Running diskpart, `Mount-DiskImage` and `Dismount-DiskImage` (nicepro.py:183, 199, 233). Only their outcomes are modelled: succeeded, failed with a non-zero exit, or raised something else.
- Where the script is written (nicepro.py:159). Write errors for it are not modelled, and `os.path.exists(script_path)` at nicepro.py:189 is taken to hold.
- The `time.sleep` calls (nicepro.py:192, 214). Only their effect on control flow is kept: `Z:\` is looked at twice at most.
- The tqdm display and the messages (nicepro.py:47, 84). Only the counter and its total are modelled.
- `shutil.copystat` metadata (nicepro.py:81). Only its failure is modelled, as the fault oracle's case of a count at or past the last chunk.
- The order `os.walk` yields entries in. The walk is a fixed input listing and is not derived from the source tree.
- A failing `os.makedirs` inside the copy (nicepro.py:54, 219). In the copier, `makedirs` always succeeds. In `Orchestrator.Environment`, any exception out of the copy phase is a single input, `copyRaises`.
- The GB rounding in the listing (nicepro.py:260, 267). It is floating point and display only.
- Console `input` and `print` in `main`. The answers are inputs and the outcome names the message.
- The final `input` that holds the window open (nicepro.py:305).
- A `ValueError` coming out of `make_usb_bootable`. `main` would report it as "not a valid number"; the model reports every exception from it as `Cli.Ending.FatalError`.
- Text.Upper: `upper()` is modelled on ASCII letters only. Python also upper-cases other Unicode letters, which can be seen: `'yeſ'.upper() == 'YES'`, so the program accepts a confirmation that Cli.ConfirmedMeaning says is refused (and likewise for the boot-mode answer and the WMI fields).
- Text.ParseInt: `int()` is modelled on an optional sign followed by ASCII digits. Python also accepts surrounding whitespace, `_` separators and non-ASCII digits. The model treats those inputs as rejected.
- Copier.CopyRecursive: whether a file fails, after how many chunks, and whether `copystat` fails are given by the fault oracle, not by the file system. `AfterChunks(k)` leaves only whole 64 KiB chunks behind, so a write that fails part-way through a chunk is not modelled.
- Diskpart.ProvisionEffect: diskpart's behaviour is an explicit reference reading of the seven commands the script uses, not diskpart itself. Disk and volume sizes are not modelled, so refusing `format fs=fat32` on a volume over 32 GB is not modelled. Offline, read-only and system disks are not modelled either. The reading refuses only a missing disk and a letter already held.
- The link between the diskpart script and its exit status. The diskpart outcome in `Orchestrator.Environment` is an input, not derived from `Diskpart.Run`, so a refused script is not tied to the `Failed` outcome.
- Copier.CleanRunReachesTotal: "counter equals total" is proved only for runs with no failures and no symbolic links. For the other cases, Copier.FailureAfterChunksOvershoots and Copier.LinkCountedBeyondTotal prove that the counter overshoots.

## Findings

| source | as written | input that shows it | evidently intended | confidence | as-written member | corrected member |
|---|---|---|---|---|---|---|
| nicepro.py:144 | each root `X:\` is compared with `os.environ.get("HOMEDRIVE", "").upper()`, but HOMEDRIVE holds `X:` without the backslash, so the comparison never matches and the home drive is never skipped | HOMEDRIVE = `D:`, image mounted on `D:\` (the home drive has a `sources` folder): the probe returns `D:\`, and `make_usb_bootable` copies from it and returns True (Orchestrator.HomeDriveImageCopiedAsWritten) | the home drive is skipped whatever its backslash, as `C:\` is | not executed | IsoProbe.HomeDriveReturnedAsWritten | IsoProbe.HomeDriveNotReturned |
