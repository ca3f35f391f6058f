# Verified models of the Surface tools

This project models the parts of the repository whose correctness depends on several steps fitting together,
and proves what those steps keep, for all inputs, runs and interleavings. `dafny verify dfyconfig.toml` checks it.

## What is modelled

**The factory address reader** (`Factory*.dfy`, `Bytes.dfy`). `FactoryLayout` says, about bytes alone, what it
means for a storage image to carry a Bluetooth address: a GPT (UEFI Specification 2.10, sections 5.3.2 and 5.3.3)
with two DPP partitions, each an RWFS volume with one Bluetooth record. `FactoryReader` is the reader with its
mutable budget; it is proved to accept exactly those images whose reading cost fits the budget, to spend exactly
that cost, and to issue no request outside the device or, for a record, outside its partition. `FactoryEncoder` and
`FactoryImage` write such images and prove that reading returns what was written. Free are the sector size, the
header length and the bytes behind the header fields, the place of the table, the entry size, all other entries, the
order of the two copies in the table and on the disk, and in each volume the places of the second header, the
directory and the payload, all other slots, the spelling of the names and all filler; reserved header fields are zero.
`FactoryFraming` proves that damage inside one copy can never change the address.

**The firmware store** (`Firmware*.dfy`). `FirmwarePolicy` is the manifest: canonical and readable back.
`FirmwareBundle` is the inventory and the chunked, hashing copy. `FirmwareStore` is provisioning as one call on a
store. `FirmwareCrash` takes that call apart into file-system operations on a disk that forgets: of every tree, the
published ones included, it records which file contents and which directory entries have been synced, and a crash
after any operation may drop or change everything else. `FirmwareCrash.SurvivesExactly` says that a tree survives all
crashes exactly when all its nodes are synced, and the run theorems rest on it.
`FirmwareLoader` is the early-boot loader and its agreement with the tools. `FirmwareHost` is setup: host and mount
checks, and the ordered installation that sets the boot argument last. `FirmwareVersion` is the version order.
`FirmwareUpdates` puts them together: setup, guarded updates, reboots, rollbacks and crashing provisionings in any
order.

**The CPU parking controller** (`Parking*.dfy`). `ParkingModel` is one decision on values, with 64-bit wrapping
arithmetic written out; `ParkingController` is the module's state and callbacks, proved against it; `ParkingRuns`
proves what holds over whole runs with failing hotplug calls; `ParkingProtocol` cuts the work item and the `enabled`
callback into atomic steps and proves an invariant of every interleaving.

**Four smaller tools.** `TreeCompare` (stack walk, one digest per inode), `OciAudit` (memoised
recursive audit), `Fstab` (in-place fstab rewrite) and `GrubEntry` (boot menu normaliser). `Words` holds the
blank-separated fields and splitting that the text tools share, and the form of a digest.

Every lemma for which Dafny would pick an induction by itself says `{:induction false}`, so each proof is the one
that is written.

## Findings

- The read budget is not enough for every image the format checks accept. `FactoryImage.BudgetCanRunOut` gives one
  that reaches the greatest possible cost, and `FactoryImage.ReadBack` says exactly when a written image is read back:
  when its cost is within the budget.
- Setup and the update check accept a bundle whose rename was never synced. `FirmwareUpdates.UnsyncedSetupIsReached`
  gives the run that leads there (a provisioning that fails in its last directory sync),
  `FirmwareUpdates.SetupCanLose` the crash that then takes the bundle away after the machine was opted in, and
  `FirmwareUpdates.SetupLasts` the exact condition: the bundle is there after every continuation if and only if its
  rename had been synced.
- The loader is stricter than the tools that build the store: it also wants `qcom/` and no two adjacent dots.
  `FirmwareLoader.LoaderAgrees` says they agree exactly on policies with such targets;
  `FirmwareLoader.OutsideIsRefused` and `FirmwareLoader.DottedIsRefused` are policies they disagree on.
- A wake-up that fails can leave the parked set with a gap: `ParkingRuns.FailedWakeLeavesGap` is such a run.
  `ParkingRuns.WakeAllUpper` gives the exact condition: failures go upward among the parked CPUs.
- With `busy_down_pct` above `busy_up_pct` the controller can park while the load is above `busy_up_pct`:
  `ParkingRuns.CrossedThresholdsPark` is an instance and `ParkingRuns.ParksUnderLoad` the exact condition.
- The 64-bit product in the utilization can wrap (`ParkingModel.UtilCanWrap`). The bound of 100 still holds, and the
  percentage is the true one exactly when the product fits (`ParkingModel.UtilExact`).
- An fstab home entry whose line starts with a blank is moved behind /var but still mounts /home:
  `Fstab.BlankHomeExists` is such a file, and `Fstab.RehomedName` the exact condition.

## Model

| member | source | states |
|---|---|---|
| Bytes.DecodeEncodeLE | surface/bluetooth_address.py:31-32 | reading a little-endian integer of any width recovers every value that fits it |
| Bytes.DecodeEncodeText | surface/bluetooth_address.py:81 | decoding a zero-padded UTF-16 field and cutting at the first NUL recovers any plain name that fits the field |
| FactoryLayout.RecordUnique | surface/bluetooth_address.py:137-139 | a volume carries at most one address |
| FactoryLayout.LocatesUnique | surface/bluetooth_address.py:84-87 | a table locates each copy in at most one place |
| FactoryLayout.LayoutUnique | surface/bluetooth_address.py:53-94 | an image has at most one accepted sector size and pair of partitions, although two sector sizes are tried |
| FactoryLayout.CopiesAgree | surface/bluetooth_address.py:144-147 | the address of an image is settled by both copies: it exists exactly when they are equal |
| FactoryLayout.FactoryUnique | surface/bluetooth_address.py:142-147 | an image carries at most one address, in one place |
| FactoryLayout.ExtentInside | surface/bluetooth_address.py:85-87 | a located copy is nonempty and lies between the first and last usable sectors |
| FactoryLayout.LayoutSafe | surface/bluetooth_address.py:66-93 | accepted partitions are nonempty, disjoint, and clear of the header sector, the entry table and the backup header, inside the device |
| FactoryReader.Reader.Open | surface/bluetooth_address.py:36-39 | a reader exists exactly for sizes from 1 byte to 128 MiB and starts with the whole budget |
| FactoryReader.Reader.Read | surface/bluetooth_address.py:41-50 | one bounded read: out of range or over budget leaves the reader unchanged; otherwise it is paid for even when short; success returns exactly the requested bytes |
| FactoryReader.Reader.ReadWithin | surface/bluetooth_address.py:98-101 | a read inside a partition succeeds exactly when its bytes are readable and paid for, and is issued inside the partition |
| FactoryReader.Reader.ReadHeaders | surface/bluetooth_address.py:103-115 | both headers are accepted exactly when signatures, offsets and directory bounds are in order, for 136 bytes of budget |
| FactoryReader.Reader.ReadDirectory | surface/bluetooth_address.py:103-116 | succeeds exactly when the headers are accepted and the directory can be read and paid for, and returns where the data starts and the directory bytes |
| FactoryReader.Reader.ReadPayload | surface/bluetooth_address.py:126-136 | yields an address exactly when region, size, kind and address of the payload are in order, for 8 bytes of budget |
| FactoryReader.Reader.ReadSlot | surface/bluetooth_address.py:119-136 | a slot is skipped exactly when it is a hole or a readable record of another name; a failure is an undecodable slot, a bad record or a spent budget |
| FactoryReader.Reader.ReadSlots | surface/bluetooth_address.py:117-139 | the directory scan succeeds exactly when the slots hold one record; the loop range is fixed before `size` is rebound |
| FactoryReader.ScanStuck | surface/bluetooth_address.py:119-136 | a slot that stops the scan rules out every address |
| FactoryReader.ScanEnd | surface/bluetooth_address.py:137-139 | a finished scan has one match exactly when the slots carry that address |
| FactoryReader.Reader.ReadRecord | surface/bluetooth_address.py:97-139 | succeeds exactly on volumes with one record whose cost is within the budget, spends exactly 144 bytes plus the directory, and reads only inside its partition |
| FactoryReader.SeenStuck | surface/bluetooth_address.py:80-87 | an entry that stops the table scan (bad name, duplicate or out of range) rules out every pair of partitions |
| FactoryReader.SeenAll | surface/bluetooth_address.py:88-93 | a finished table scan is acceptable exactly when both copies were found and do not overlap |
| FactoryReader.Reader.ScanTable | surface/bluetooth_address.py:76-93 | returns the partitions exactly when every used entry has a readable name and both copies are named once, in range and disjoint |
| FactoryReader.Reader.ReadTable | surface/bluetooth_address.py:58-75 | accepts exactly the headers and tables with good fields, checksums, geometry and bounds, for the price of the table |
| FactoryReader.Reader.DppPartitions | surface/bluetooth_address.py:53-94 | finds the partitions exactly when the image has them and the budget suffices, trying 512-byte sectors first, and spends exactly 512 (or 4608) bytes plus the table |
| FactoryReader.Reader.ReadCopies | surface/bluetooth_address.py:144-147 | both copies are read and must agree; exact success condition and cost |
| FactoryReader.Reader.ReadFactory | surface/bluetooth_address.py:142-147 | returns the address the image carries, succeeds on every image that carries one within the budget, and spends exactly its cost; all requests stay inside the device |
| FactoryEncoder.PrintInjective | surface/bluetooth_address.py:134 | the printed form determines the bytes |
| FactoryEncoder.AddressOfPrint | surface/postinstall_firmware.py:15-20 | six bytes print to an acceptable address unless they are all zero or all ones |
| FactoryEncoder.VolumeRoundTrip | surface/bluetooth_address.py:97-139 | a volume written with headers, directory and payload at any places, any other slots, spelling and filler carries exactly the written address |
| FactoryImage.TableRoundTrip | surface/bluetooth_address.py:76-93 | a table of entries of any accepted size, with the two copies in either order among unused and foreign entries, locates exactly the two written extents |
| FactoryImage.HeaderRoundTrip | surface/bluetooth_address.py:55-65 | a written header of any accepted length passes the signature, length, revision and checksum tests, for every checksum function |
| FactoryImage.GeometryRoundTrip | surface/bluetooth_address.py:65-71 | the geometry read from a written header is the written one |
| FactoryImage.SectorRoundTrip | surface/bluetooth_address.py:54-57 | the sector size is recognised; with 4096-byte sectors this needs bytes 512 to 519 not to be the signature |
| FactoryImage.ImageRoundTrip | surface/bluetooth_address.py:53-147 | every written image, with the table at any place and the copies in either order, carries exactly the written address in the written partitions |
| FactoryImage.CostOfImage | surface/bluetooth_address.py:41-46 | what reading a written image costs, in the terms of what was written |
| FactoryImage.ReadBack | surface/bluetooth_address.py:142-147 | reading a written image returns the printed address if and only if its cost is within the budget, and never another address |
| FactoryImage.FixtureIsValid | surface/bluetooth_address.py:53-147 | the writer conditions can be met: a small image within the budget |
| FactoryImage.BudgetCanRunOut | surface/bluetooth_address.py:39-46 | an image that is acceptable in every respect, costs as much as any accepted image can, and that is more than the budget |
| FactoryFraming.LayoutFrame | surface/bluetooth_address.py:53-94 | changing bytes inside one copy leaves the partition table as it was |
| FactoryFraming.OneCopyCannotChangeTheAddress | surface/bluetooth_address.py:87-147 | two images that differ only inside one copy and are both accepted carry the same address |
| FactoryFraming.VolumeSafe | surface/bluetooth_address.py:103-130 | in an accepted volume the headers, the directory and the payload are separate ranges in this order, inside the partition |
| FactoryFraming.CostBound | surface/bluetooth_address.py:68-73 | no accepted image costs more than the largest table and two full directories; the bound is reached |
| ParkingModel.UtilBound | custom/usr/src/cpu-parking/cpu_parking.c:131-137 | a CPU contributes at most 100, whatever wraps |
| ParkingModel.UtilExact | custom/usr/src/cpu-parking/cpu_parking.c:136-137 | the contribution is the true percentage if and only if the 64-bit product does not wrap |
| ParkingModel.UtilCanWrap | custom/usr/src/cpu-parking/cpu_parking.c:136-137 | a sample pair whose product wraps: a fully busy CPU contributes nothing |
| ParkingModel.TotalBound | custom/usr/src/cpu-parking/cpu_parking.c:113-141 | the total is at most 100 per sampled CPU and at most 1600, so 32 bits do not overflow |
| ParkingModel.AverageBound | custom/usr/src/cpu-parking/cpu_parking.c:147 | the average utilization is at most 100 |
| ParkingModel.MovedAt | custom/usr/src/cpu-parking/cpu_parking.c:131-134 | exactly the sampled CPUs get new previous samples |
| ParkingModel.LowestIs | custom/usr/src/cpu-parking/cpu_parking.c:151-157 | the upward search finds the lowest candidate, or there is none |
| ParkingModel.HighestIs | custom/usr/src/cpu-parking/cpu_parking.c:160-167 | the downward search finds the highest candidate, or there is none |
| ParkingRuns.DecideIs | custom/usr/src/cpu-parking/cpu_parking.c:150-168 | what a tick decides: waking the lowest parked parkable CPU above the upper threshold, parking the highest online one below the lower threshold with enough online |
| ParkingRuns.RunPartition | custom/usr/src/cpu-parking/cpu_parking.c:76-109 | over any run, with any hotplug failures, online and parked CPUs are disjoint and together are the CPUs online at the start |
| ParkingRuns.UnparkFromAll | custom/usr/src/cpu-parking/cpu_parking.c:101-109 | waking everything with working hotplug restores the initial online set |
| ParkingRuns.UnparkFromFails | custom/usr/src/cpu-parking/cpu_parking.c:88-109 | waking everything leaves parked exactly the CPUs whose wake-up failed |
| ParkingRuns.WakeAllUpper | custom/usr/src/cpu-parking/cpu_parking.c:101-109 | waking everything keeps the parked set an upper segment if and only if failures go upward among the parked CPUs |
| ParkingRuns.RunUpper | custom/usr/src/cpu-parking/cpu_parking.c:150-168 | with one parkable mask, and wake-ups that fail only from some parked CPU upward, the parked set is always an upper segment of the parkable CPUs |
| ParkingRuns.FailedWakeLeavesGap | custom/usr/src/cpu-parking/cpu_parking.c:88-168 | a run from CPUs 0, 5 and 6 online, two idle ticks and a wake-up of which CPU 5 fails, that ends with CPU 5 parked under the online CPU 6 |
| ParkingRuns.TickChangesOne | custom/usr/src/cpu-parking/cpu_parking.c:150-168 | a tick changes at most one CPU |
| ParkingRuns.TickKeepsMinimum | custom/usr/src/cpu-parking/cpu_parking.c:158-168 | a tick that parks leaves at least the configured minimum of parkable CPUs online |
| ParkingRuns.SustainedLoad | custom/usr/src/cpu-parking/cpu_parking.c:148-157 | under load above the upper threshold the number of parked parkable CPUs falls by one per tick to zero; it stays there while the load is not below the lower threshold |
| ParkingRuns.ParksUnderLoad | custom/usr/src/cpu-parking/cpu_parking.c:150-168 | above the upper threshold a tick parks if and only if nothing parkable is parked, the load is below the lower one, enough CPUs were sampled and one can be parked |
| ParkingRuns.CrossedThresholdsPark | custom/usr/src/cpu-parking/cpu_parking.c:150-159 | with crossed thresholds and CPUs 0 and 4 online, a tick parks CPU 4 although the load is above the upper threshold |
| ParkingController.Controller.constructor | custom/usr/src/cpu-parking/cpu_parking.c:193-198 | the module as loaded: enabled, nothing parked, every online CPU sampled |
| ParkingController.Controller.SnapshotCpu | custom/usr/src/cpu-parking/cpu_parking.c:58-66 | one CPU is sampled; CPUs beyond the arrays are ignored |
| ParkingController.Controller.SnapshotAllOnline | custom/usr/src/cpu-parking/cpu_parking.c:68-74 | exactly the online CPUs are sampled |
| ParkingController.Controller.ParkCpu | custom/usr/src/cpu-parking/cpu_parking.c:76-86 | parking moves an online CPU to the parked set unless hotplug fails |
| ParkingController.Controller.UnparkCpu | custom/usr/src/cpu-parking/cpu_parking.c:88-99 | waking moves an offline CPU back and samples it; an online CPU is left alone, bit included |
| ParkingController.Controller.UnparkAll | custom/usr/src/cpu-parking/cpu_parking.c:101-109 | the loop is the ordered wake-up of the specification, and samples exactly the CPUs it woke |
| ParkingController.Controller.Sample | custom/usr/src/cpu-parking/cpu_parking.c:123-142 | counts, total and new previous samples of one sampling loop |
| ParkingController.Controller.Adjust | custom/usr/src/cpu-parking/cpu_parking.c:150-168 | the two search loops carry out the specified decision |
| ParkingController.Controller.ParkingWork | custom/usr/src/cpu-parking/cpu_parking.c:111-173 | one execution of the work item: disabled wakes all and does not reschedule, nothing sampled changes nothing, otherwise the average is bounded and the decision is carried out; all previous samples accounted for |
| ParkingProtocol.StepKeepsInvariant | custom/usr/src/cpu-parking/cpu_parking.c:111-191 | every atomic step of the work item and of the parameter callback keeps the invariant, whatever hotplug calls fail |
| ParkingProtocol.NeverStuck | custom/usr/src/cpu-parking/cpu_parking.c:170-191 | in every interleaving with any hotplug failures an enabled controller outside a write has work pending or running, and no CPU is lost |
| ParkingProtocol.StepStuck | custom/usr/src/cpu-parking/cpu_parking.c:101-121 | a step leaves a CPU that nothing will wake only if its wake-up fails |
| ParkingProtocol.OnlyFailuresStayParked | custom/usr/src/cpu-parking/cpu_parking.c:111-121 | when nothing is pending or running, only CPUs whose wake-up failed are parked; without failures all are online |
| ParkingProtocol.UnloadRestores | custom/usr/src/cpu-parking/cpu_parking.c:205-210 | unloading after any interleaving brings back every CPU |
| FirmwarePolicy.Manifest | surface/firmware_bundle.py:21-38 | accepts exactly the policies with 1 to 256 safe, distinct targets and lower-case digests, and writes their sorted rows |
| FirmwarePolicy.SortSorted | surface/firmware_bundle.py:38 | the rows come out in order |
| FirmwarePolicy.SortedUnique | surface/firmware_bundle.py:38 | a sorted list is determined by its elements |
| FirmwarePolicy.RowInjective | surface/firmware_bundle.py:37 | a row determines its entry |
| FirmwarePolicy.ManifestReadsBack | surface/dracut/91azurefin-firmware/load-firmware.sh:47-59 | reading the manifest line by line, as the loader does, recovers the entries |
| FirmwarePolicy.ManifestCanonical | surface/firmware_bundle.py:21-38 | two accepted policies have the same manifest if and only if they have the same entries |
| FirmwareBundle.CheckEntry | surface/firmware_store_probe.py:22-51 | reading one file to its end accepts exactly a safe entry whose bytes have the size declared at opening, within the limit, and the digest |
| FirmwareBundle.Inventory | surface/firmware_store_probe.py:15-60 | accepts exactly the accepted policies whose files were all read well within the limits, whatever happened to the files while they were read, and returns their total |
| FirmwareBundle.InventoryStops | surface/firmware_store_probe.py:22-54 | an entry that stops the inventory rules the policy out |
| FirmwareBundle.InventoryOf | surface/firmware_store_probe.py:15-60 | on a tree that nobody changes the inventory accepts exactly the accepted policies that the tree holds |
| FirmwareBundle.MakeParentsIs | surface/firmware_bundle.py:70 | missing directories are created, existing ones kept, and anything else in the way is a failure |
| FirmwareBundle.Workspace.CopyFile | surface/firmware_bundle.py:65-83 | what is stored is exactly what was read and hashed, with the declared size, whatever the source does meanwhile; nothing else changes but new directories |
| FirmwareBundle.Workspace.CopyVerified | surface/firmware_bundle.py:49-86 | success means the workspace holds the whole policy, without links, and each file is what was read |
| FirmwareStore.Store.CheckExisting | surface/firmware_bundle.py:97-101 | an existing bundle is accepted exactly when it holds the policy |
| FirmwareStore.Store.Publish | surface/firmware_bundle.py:102-114 | failure leaves the store as it was; success adds exactly one bundle that holds the policy; the temporary name is gone |
| FirmwareStore.Store.Provision | surface/firmware_bundle.py:90-115 | every published name stays a verified bundle; failure changes nothing, success publishes or confirms exactly the bundle named by the manifest digest |
| FirmwareCrash.SurvivesExactly | surface/firmware_bundle.py:41-46 | a tree survives every crash if and only if all its file contents and directory entries have been synced |
| FirmwareCrash.CreateNests | surface/firmware_bundle.py:70-72 | creating a file with its directories keeps every node listed by a directory of the tree |
| FirmwareCrash.CopyStepKeeps | surface/firmware_bundle.py:65-83 | opening, writing and closing a file keep what was copied before, and closing puts its contents on the disk |
| FirmwareCrash.SyncsDecide | surface/firmware_bundle.py:106-107 | a complete tree survives every crash if and only if all directories that list something were synced; the walk over all directories is enough |
| FirmwareCrash.CopyEstablishes | surface/firmware_bundle.py:104-105 | the inventory after the copy never fails: the copy has established all that it checks |
| FirmwareCrash.EarlyRenameCanLose | surface/firmware_bundle.py:106-110 | renaming before a directory is synced would let a crash publish a bundle without one of its files, which holds no policy of that manifest |
| FirmwareCrash.RenameKeeps | surface/firmware_bundle.py:108-110 | the rename publishes a verified tree that is on the disk to the last name, and replaces no bundle, because existing valid bundles are not empty |
| FirmwareCrash.CrashKeeps | surface/firmware_bundle.py:106-114 | after a crash that may drop or change whatever was not synced, published bundles are verified and unchanged, up to unsynced renames |
| FirmwareCrash.StepKeeps | surface/firmware_bundle.py:49-115 | every operation, failure and crash keeps published bundles verified, unaltered and on the disk |
| FirmwareCrash.RunKeeps | surface/firmware_bundle.py:4-7 | in every run no bundle with a synced rename is ever altered or removed, and every published name is verified and on the disk |
| FirmwareCrash.SurvivesEveryRun | surface/firmware_bundle.py:110-111 | a published bundle is there unchanged after every run if and only if its rename has been synced |
| FirmwareCrash.UnsyncedIsReached | surface/firmware_bundle.py:97-114 | a run from an empty store that fails in the last directory sync and leaves a complete bundle whose rename is not synced |
| FirmwareLoader.Machine.FindUuid | surface/dracut/91azurefin-firmware/load-firmware.sh:5-16 | the boot UUID is accepted exactly when there is none or one, in canonical form |
| FirmwareLoader.Machine.CopyLines | surface/dracut/91azurefin-firmware/load-firmware.sh:46-59 | the line loop succeeds exactly when every line passes its checks within the total, and copies those files; `.` components are resolved as on disk |
| FirmwareLoader.Machine.CheckCopy | surface/dracut/91azurefin-firmware/load-firmware.sh:60 | the RAM copy is accepted exactly when at least one file is listed and all have their digests |
| FirmwareLoader.Machine.CopyToRam | surface/dracut/91azurefin-firmware/load-firmware.sh:44-60 | a verified RAM copy exists exactly for loadable bundles, with the digests checked on the copy |
| FirmwareLoader.Machine.Load | surface/dracut/91azurefin-firmware/load-firmware.sh:5-67 | the firmware is exposed exactly when arguments, device, directories, bundle and digests are in order and nothing was exposed before; the path is set only with every listed file verified in RAM, and any other exit changes nothing |
| FirmwareLoader.ManifestPermutation | surface/dracut/91azurefin-firmware/load-firmware.sh:47-59 | the lines read back are the policy entries, each exactly once |
| FirmwareLoader.TotalPermute | surface/dracut/91azurefin-firmware/load-firmware.sh:55-56 | the size total does not depend on the order of the lines |
| FirmwareLoader.LoaderAgrees | surface/dracut/91azurefin-firmware/load-firmware.sh:47-60 | on a bundle that holds an accepted policy, the loader accepts if and only if every target is under qcom/ and has no two adjacent dots |
| FirmwareLoader.OutsideIsRefused | surface/dracut/91azurefin-firmware/load-firmware.sh:50 | an accepted policy with a target outside qcom/ that a bundle holds and the loader refuses |
| FirmwareLoader.DottedIsRefused | surface/dracut/91azurefin-firmware/load-firmware.sh:50 | an accepted policy with two adjacent dots inside a name that a bundle holds and the loader refuses |
| FirmwareLoader.SafeResolves | surface/dracut/91azurefin-firmware/load-firmware.sh:50-52 | a safe target is found where it says and names a file |
| FirmwareLoader.ExposesThePolicy | surface/dracut/91azurefin-firmware/load-firmware.sh:46-66 | what is exposed is exactly the policy map from targets to bytes |
| FirmwareHost.HostAccepted | surface/setup_firmware_store.py:30-44 | setup may proceed if and only if the system is installed and settled, /boot is one proper file system, and no boot UUID contradicts it |
| FirmwareHost.SetArgumentAgrees | surface/setup_firmware_store.py:30-44 | after the host check and the argument change there is exactly one boot UUID, that of the mounted file system; other arguments stay; the mount check passes; doing it again changes nothing |
| FirmwareHost.ReplacedOthers | surface/setup_firmware_store.py:72-75 | replacing the boot UUID leaves all other arguments and their order |
| FirmwareHost.ConflictIsRefused | surface/setup_firmware_store.py:41-43 | a doubled or foreign boot UUID is refused, never replaced |
| FirmwareHost.Installation.CheckBundle | surface/firmware_preflight.py:49-59 | passes exactly when the policy matches the image manifest, the directories are trusted and the bundle holds the policy |
| FirmwareHost.Installation.InstallStore | surface/setup_firmware_store.py:65-76 | the boot argument is set last: on failure it is untouched; on success the bundle is in the store; the store changes at most by that bundle |
| FirmwareHost.SetupThenPreflight | surface/setup_firmware_store.py:99-113 | after a successful setup the preflight passes exactly when the space used leaves the reserve, which is guaranteed up to the largest bundle; the next boot exposes the policy if and only if the loader allows its targets |
| FirmwareVersion.ParseIsText | surface/system_update_preflight.py:36-40 | a string is accepted with a version if and only if it is the canonical text of that version |
| FirmwareVersion.ParseInjective | surface/system_update_preflight.py:36-40 | on accepted strings parsing is injective |
| FirmwareVersion.BelowIsStrictTotal | surface/system_update_preflight.py:40-45 | the comparison is a strict total order and a pre-release is below its final version |
| FirmwareVersion.NotOlderChain | surface/system_update_preflight.py:44-45 | accepted updates compose, and coming back to a version means the strings were identical |
| FirmwareVersion.ChainNeverDecreases | surface/system_update_preflight.py:34-45 | along any chain of accepted updates versions never decrease |
| FirmwareVersion.SameVersionSameString | surface/system_update_preflight.py:34-45 | between two equal versions of a chain every string is the same |
| FirmwareUpdates.HeldByEntries | surface/firmware_store_probe.py:22-55 | a bundle that holds a policy holds every policy with the same entries, total size included |
| FirmwareUpdates.UpdateKeepsBundle | surface/system_update_preflight.py:48-74 | an update that passes all guards stages an image whose bundle is already in the store |
| FirmwareUpdates.CheckedIsKept | surface/firmware_preflight.py:49-59 | in a sound store a bundle that passes the check is a verified, link-free bundle |
| FirmwareUpdates.EventKeeps | surface/system_update_preflight.py:48-74 | every event keeps the bundles of protected images |
| FirmwareUpdates.RunKeeps | surface/system_update_preflight.py:48-74 | over any sequence of setups, updates, reboots, rollbacks, provisioning steps, failures and crashes, the image booted at setup and every image staged later keep their verified bundle, if the bundle checked at that moment had a synced rename |
| FirmwareUpdates.ProtectedBoots | surface/dracut/91azurefin-firmware/load-firmware.sh:5-67 | at the end of any such run the loader of a protected image exposes exactly its policy, if and only if its targets are ones the loader allows |
| FirmwareUpdates.SetupLasts | surface/setup_firmware_store.py:70-75 | after a setup the bundle it relied on is there at the end of every continuation if and only if its rename had been synced |
| FirmwareUpdates.SetupCanLose | surface/setup_firmware_store.py:70-75 | otherwise one crash leaves a machine that is opted in and has no bundle |
| FirmwareUpdates.UnsyncedSetupIsReached | surface/firmware_bundle.py:97-111 | a run that leads to such a setup: a provisioning that fails in its last directory sync, after which the checks pass |
| TreeCompare.AgreedIsSame | surface/compare_installer_trees.py:42-52 | agreement on entries, first paths and first digests implies equal contents and equal hardlink groups |
| TreeCompare.FirstAgrees | surface/compare_installer_trees.py:43-46 | in trees that are the same both maps send the next file to the same first path |
| TreeCompare.Visit | surface/compare_installer_trees.py:22-56 | comparing one path keeps the agreement, or the trees differ; a file is digested exactly when its inode is new |
| TreeCompare.Advance | surface/compare_installer_trees.py:21-38 | popping a path and pushing its children visits a new path and keeps everything else waiting |
| TreeCompare.Compare | surface/compare_installer_trees.py:15-57 | succeeds if and only if paths, types, metadata, xattrs, targets, devices, contents and hardlink groups are equal; visits every path once and digests one file per inode |
| OciAudit.LevelByLevel | scripts/audit-release.py:63-68 | everything reachable from a descriptor is in order exactly when the document is and everything reachable from its children is |
| OciAudit.Audit.Layers | scripts/audit-release.py:72-75 | skipping remembered layers gives the verdict of auditing all of them |
| OciAudit.Audit.Manifest | scripts/audit-release.py:63-75 | the recursive walk gives the verdict of auditing every occurrence of everything reachable, and ends on acyclic layouts |
| OciAudit.Audit.Children | scripts/audit-release.py:65-68 | an index passes exactly when everything reachable from each child is in order |
| OciAudit.AuditOci | scripts/audit-release.py:49-82 | the audit passes if and only if the index is not empty and everything reachable is in order |
| OciAudit.EveryLayerAudited | scripts/audit-release.py:72-75 | a passed audit covered every layer of every reachable image, however deep and however often skipped |
| Fstab.SplitJoin | surface/installer_fix_fstab.py:11 | splitting joined lines gives the lines back |
| Fstab.RehomeIs | surface/installer_fix_fstab.py:39 | the rewrite turns the second field /home into /var/home, keeps all other fields, and does not apply twice |
| Fstab.HomeIsRewritten | surface/installer_fix_fstab.py:39 | every line that starts with its first field and mounts /home is rewritten |
| Fstab.FindKind | surface/installer_fix_fstab.py:12-16 | the entries of one kind with their indices: all of them, in order |
| Fstab.CommentRoot | surface/installer_fix_fstab.py:16-32 | refuses exactly several roots or a root that no boot entry selects; otherwise only the root line becomes a comment |
| Fstab.PlaceHome | surface/installer_fix_fstab.py:33-44 | refuses exactly ambiguous home or /var entries; otherwise the home line is rewritten and moved behind /var when it came first |
| Fstab.CorrectedFstab | surface/installer_fix_fstab.py:10-45 | the in-place edit refuses exactly in the specified cases and otherwise computes the corrected lines |
| Fstab.CorrectionIsIdempotent | surface/installer_fix_fstab.py:10-45 | a correction that succeeds succeeds again on its own output and changes nothing |
| Fstab.HomeFollowsVar | surface/installer_fix_fstab.py:35-44 | with a canonical home, the home entry comes after /var, and it mounts /var/home if and only if it did before or its line does not start with a blank |
| Fstab.RehomedName | surface/installer_fix_fstab.py:39 | the exact condition for one line, and a line that starts with a blank is left as it is |
| Fstab.BlankHomeIsOnlyMoved | surface/installer_fix_fstab.py:33-44 | every home line with a leading blank in front of the /var line is moved behind it and still mounts /home |
| Fstab.BlankHomeExists | surface/installer_fix_fstab.py:33-44 | such a file, with the correction written out |
| Fstab.CorrectionKeepsOthers | surface/installer_fix_fstab.py:10-45 | active entries other than root and home keep their fields and order |
| Fstab.CorrectedText | surface/installer_fix_fstab.py:45 | the corrected text splits into the corrected lines again |
| Fstab.System.Fix | surface/installer_fix_fstab.py:48-73 | when `fix` succeeds, and what it leaves in the file and in the backup; a refusal changes nothing |
| Fstab.FixRepeatedly | surface/installer_fix_fstab.py:48-73 | however often it runs, the file is corrected once and the backup stays the original |
| GrubEntry.ValuesAreQuiet | surface/release_iso_grub.py:9-15 | values read from an entry hold no brace or newline |
| GrubEntry.JoinedFields | surface/release_iso_grub.py:18 | splitting joined arguments gives the arguments back |
| GrubEntry.ArgumentsSettle | surface/release_iso_grub.py:21-32 | accepted arguments keep all but the Kickstart argument, which names the medium of stage 2; no diagnostic stop is left; accepting them again changes nothing |
| GrubEntry.HeaderIsTidy | surface/release_iso_grub.py:37-39 | the header that is kept opens no entry, sets no default or timeout, and ends in text |
| GrubEntry.TidySettles | surface/release_iso_grub.py:37-39 | cleaning the written header again gives the same header |
| GrubEntry.PatchedMenu | surface/release_iso_grub.py:37-43 | a patched menu has exactly one entry, with the accepted arguments, behind the kept header and the two settings |
| GrubEntry.SomeMenuIsAccepted | surface/release_iso_grub.py:8-43 | for every safe medium label there is a menu that is accepted and left alone |
| GrubEntry.PatchSettles | surface/release_iso_grub.py:8-43 | one application reaches the fixed point, for every menu that is accepted |
| GrubEntry.FixedMeansPatched | surface/51-audit-release-iso.sh:103 | the release audit test `patch(text) == text` accepts exactly the menus that a patch wrote |

## Left out

- Checksums and digests (`zlib.crc32`, SHA-256) are parameters. Where the source relies on SHA-256 not colliding, this is assumed of the manifests, or of the compared files, that occur.
- Device discovery, module loading and configuration of the Bluetooth tool (`detect`, `configure`) and its error messages.
- Case folding in RWFS names covers the code points whose folding can produce the searched ASCII words; `address` is used on text that is already upper case.
- The writer of factory images sets reserved header fields and the disk GUID to zero; the reader never looks at them.
- Python's type checks on JSON values; the policy is a list of string pairs.
- `PurePosixPath` is modelled by the conditions under which a relative path is its own normal form.
- File descriptors and `O_NOFOLLOW`: a tree maps paths to files, directories and links, and opening needs real directories on the way.
- Free-space checks of the update preflight, `bootc`, `ostree`, `findmnt`, `skopeo` and signature enforcement: their results are parameters or guarded transitions, and a guarded update is assumed to stage the image that was inspected, labelled with its own manifest digest.
- `FirmwareUpdates.RunKeeps`: protects an image only if the bundle it relies on had a synced rename, because otherwise it is false, as `FirmwareUpdates.SetupLasts` says.
- A crash of the model loses at most what was not synced since it was written; a disk that loses synced data is not modelled.
- `FirmwareHost.SetupThenPreflight`: the space a bundle takes is a parameter; file-system overhead is not computed.
- The advisory lock of setup: one provisioning runs at a time, and only these steps write the store.
- The loader's module loading, device polling, mounting and unmounting, and manifest text after the last newline.
- `FirmwareLoader.Machine.Load`: `sha256sum` reads each line as the shell does, which holds for lines of a digest, two blanks and a target, as the generator writes them.
- CPU masks are sets of bit positions and possible CPUs are 0 to count-1; the writable thresholds are read once per tick.
- Kernel timing, hotplug by an administrator, and toggling while the module is being unloaded.
- Changes to a tree during its comparison, the sorted order of directory listings, and progress output.
- `OciAudit.Audit.Manifest`: asks for an acyclic layout; the content checks of one layer and the private labels are abstract predicates.
- The forbidden-name list and the tar format of the release audit.
- In fstab and menu texts, white space is space, tab and newline; other line breaks and Unicode blanks are not modelled. Reading the composefs setting and the boot entries is a parameter of `fix`.
- Menu regular expressions are stated on lines; a value that is only white space is represented by one space, since it is refused either way.
- ISO assembly, release workspaces, kernel verification, the interactive installer, container files and workflow wiring.
