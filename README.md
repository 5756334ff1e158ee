# Directory storage driver: decisions and rollbacks

This project models the directory-backed storage driver of the storage layer
(`lxd/storage/drivers/driver_dir.go`) and proves properties of the model in
Dafny. The driver keeps each volume as a plain directory below the pool's mount
path. It limits filesystem volumes with kernel project quotas. It does its real
work through rsync, tar and qemu-img. What is modelled here is the layer above
those tools:

- which checks run and in which order;
- which state each step changes;
- which cleanups are registered;
- what a failure leaves behind.

The model has these parts:

- **The host** (`Types.Host`) is a value with four parts:
  - the existing paths and their contents (`fs`); a path is a sequence of components;
  - the quota project attached to each path (`project`);
  - the byte limit of each project (`limits`);
  - the set of paths whose filesystem supports project quotas (`quotaCapable`).
- **External steps.** Every external step is a `Types.Step`: making a directory,
  removing a tree, setting a project or a limit, an rsync copy, send or receive,
  a filler, tar, qemu-img. Each operation takes an oracle `fails: Step -> bool`
  that decides which steps fail. A failed step leaves the host as it was.
  Removals, quota updates and copies have their effect on the host written out
  in `HostFs`.
- **The driver** is the class `DirDriver.Dir`. It holds the pool name, the
  pool configuration (the one field `Create` writes), the volume id lookup of
  the metadata store (`getVolID`), and the byte-size parser
  (`units.ParseByteSizeString`). Both of the last two are left abstract.
  Every lifecycle operation is a method. It takes the host and returns the new
  host with the error (`Outcome`).
- **Go's deferred cleanups** are modelled explicitly:
  - `CreateVolume` registers an undo list (`Revert.Undo`) and runs it
    last-registered first, as Go runs deferred functions.
  - `copyVolume` and `CreateVolumeFromMigration` keep a list of the snapshots
    they created. On failure they delete those snapshots and then the volume path.
  - `RestoreBackupVolume` keeps a list of the paths to remove on failure.
  - Cleanup steps can fail too, and their errors are ignored as in Go. The
    "no trace" results are therefore stated under the hypothesis that the
    cleanup steps succeed.
- **Integer widths.** Go's `int64` arithmetic is modelled explicitly, wrap-around
  included, and so is the `uint32` truncation of the quota project id.

These path helpers are defined outside this file and live in `Layout`:

- `GetVolumeMountPath`, `GetVolumeSnapshotDir` and `GetPoolMountPath`;
- the snapshot name helpers `GetSnapshotVolumeName` and
  `InstanceGetParentAndSnapshotName`, modelled in `Names`.

They are modelled by the layout they give:

- `storage-pools/<pool>/<type>/<name>`;
- `storage-pools/<pool>/<type>-snapshots/<parent>/<snap>`;
- `parent/snap` split at the first `/`.

In five places the code of `driver_dir.go` is easy to misread. The model
follows the code:

- On a failed copy or migration, the registered snapshots are deleted in the
  order they were created. See lines 536-540 and 389-393.
- `RestoreBackupVolume` runs its revert hook itself when it fails after making
  the volume directory. It returns the hook only on success. See lines 945-949.
- `setQuota` with an empty size and an empty pool `volume.size` passes `""` to
  `ParseByteSizeString`. Whether `""` parses is left to the parser oracle.
- `setupInitialQuota` treats a volume size of `"0"` as given, and then
  `setQuota` replaces it with the pool's size. `Quota.InitialQuotaSize` states
  the combined rule.
- In `CreateVolume` the volume id is looked up after the mount path exists
  (inside `setupInitialQuota`). A failed lookup therefore removes the path
  again. `copyVolume` and `CreateVolumeFromMigration` look the id up before
  making anything.

Some content results depend on the new volume lying apart from its sources.
They hold under one of four predicates:

- `CopyApart`: the sources lie outside the new volume and its snapshot
  directory, and the snapshot labels are distinct.
- `SourceApart`: the same for the source volume alone.
- `MigrationApart`: the migrated snapshot names are distinct.
- `BackupApart`: the same conditions for a backup's sources.

Without them the sources and the destination could overlap.

## Model

| member | source | states |
|---|---|---|
| Quota.AddInt64 | lxd/storage/drivers/driver_dir.go:734 | Go's int64 addition `volID + 10000`: the result is congruent to the exact sum modulo 2^64 |
| Quota.Uint32Of | lxd/storage/drivers/driver_dir.go:734 | the `uint32(...)` conversion keeps the value modulo 2^32 |
| Quota.ProjectID | lxd/storage/drivers/driver_dir.go:733-735 | quotaProjectID is total and equals (volID + 10000) mod 2^32, even where the int64 addition wraps |
| Quota.ProjectIDInRange | lxd/storage/drivers/driver_dir.go:733-735 | for volume ids in 1 .. 2^32-10001 the project id is volID + 10000, nonzero, and distinct ids give distinct project ids |
| Quota.ProjectIDWrapsToZero | lxd/storage/drivers/driver_dir.go:733-735 | the truncation is observable: a volume id gets project id 0, the "no project" id, exactly when volID + 10000 is a multiple of 2^32, as 2^32-10000 and -10000 are |
| Quota.SizeRules | lxd/storage/drivers/driver_dir.go:277-286 | the three size rules: "" or "0" falls back to the pool's volume.size in setQuota; a non-empty volume size wins over the pool's; the block size is "10GB" when both are empty, so it is never empty |
| Quota.InitialQuotaSize | lxd/storage/drivers/driver_dir.go:185-189 | the size setupInitialQuota finally applies is the volume size unless that is "" or "0", in which case it is the pool's volume.size |
| Quota.InitQuota | lxd/storage/drivers/driver_dir.go:738-755 | fails with MissingVolumeID exactly when volID is 0; without quota support (a missing path or a filesystem without project quotas) it succeeds and changes nothing; otherwise it attaches the project id to the path, and succeeds exactly when that step does not fail; on error nothing changes; files and limits never change |
| Quota.SetQuota | lxd/storage/drivers/driver_dir.go:758-788 | MissingVolumeID exactly when volID is 0; an unparsable resolved size fails with that size and changes nothing; without quota support (a missing path included) it succeeds unchanged; otherwise it succeeds exactly when setting the limit does, and then the project's limit is the parsed size; on error nothing changes |
| Quota.DeleteQuota | lxd/storage/drivers/driver_dir.go:791-813 | MissingVolumeID exactly when volID is 0; without quota support (a missing path included) it succeeds unchanged; on success the path's project is 0 and the project's limit 0; with quota support it succeeds exactly when neither step fails; only that one limit can change |
| Quota.SetupInitialQuota | lxd/storage/drivers/driver_dir.go:184-225 | a lookup failure or id 0 fails with nothing changed; it returns a revert exactly on success; on success the project is attached and the initial limit set; a failed setQuota is rolled back by deleteQuota, so a failure leaves the quota state unchanged or rolled back; files never change |
| Names.ParentAndSnapshotName | lxd/storage/drivers/driver_dir.go:817 | splits a name at the first '/': it reports a snapshot exactly when the name holds '/', rejoining the parts gives the name back, and a plain name is its own parent |
| Names.SplitJoin | lxd/storage/drivers/driver_dir.go:559-560 | splitting the name GetSnapshotVolumeName builds from a parent and a label gives back that parent and label |
| Layout.VolumeDiskPath | lxd/storage/drivers/driver_dir.go:178-180 | GetVolumeDiskPath is root.img directly inside the volume's mount path |
| Revert.RunUndo | lxd/storage/drivers/driver_dir.go:236-263 | running the registered cleanups gives the host after applying them last-registered first, and the cleanups ran in reverse registration order |
| Revert.UnwindQuotaThenPath | lxd/storage/drivers/driver_dir.go:236-263 | in CreateVolume's order (quota cleanup registered last, so run first) the project limit is zeroed and the path is gone, nothing else changed |
| Revert.PathThenQuotaKeepsLimit | lxd/storage/drivers/driver_dir.go:236-263 | in the opposite order the limit would survive, because deleteQuota finds no path: the defer order matters |
| DirDriver.PendingUnwinds | lxd/storage/drivers/driver_dir.go:236-263 | whatever cleanups CreateVolume has registered when a step fails, running them (when they succeed) leaves no trace: the path is absent, nothing outside changed, and at most the volume's limit was zeroed |
| DirDriver.QuotaAndFill | lxd/storage/drivers/driver_dir.go:243-311 | after the mount path exists: the quota of a filesystem volume, then the filler and the disk image; a failure leaves the registered cleanups (path only for block volumes, path then quota once the quota is set up); success gives the created volume |
| DirDriver.FillVolume | lxd/storage/drivers/driver_dir.go:265-307 | the filler's failure is reported exactly when it ran and failed; on success the path holds the filler's contents and a block volume has its disk image and a parsable size; only the volume's path changes |
| DirDriver.RemoveVolume | lxd/storage/drivers/driver_dir.go:675-694 | deleteQuota, then removal of the path, then of the snapshot directory if empty; on success the path is gone, the snapshot dir is gone when nothing else is in it (no files of its own, no other entry) and the limit is zeroed; it succeeds when every step does |
| DirDriver.SnapshotsToCopy | lxd/storage/drivers/driver_dir.go:548 | the snapshot loop copies exactly the given snapshots when the source is not itself a snapshot, and none when it is |
| DirDriver.ApplyQuota | lxd/storage/drivers/driver_dir.go:574-583 | initQuota then setQuota without rollback: MissingVolumeID exactly for id 0, only quota errors, and on success the project attached and the limit set |
| DirDriver.QuotaAndCopy | lxd/storage/drivers/driver_dir.go:573-589 | quota then the final copy: errors are quota errors or the copy's; on success the volume holds the source's contents; a missing source fails; a failed copy keeps the limit setQuota set |
| DirDriver.SnapshotInto | lxd/storage/drivers/driver_dir.go:821-849 | makes the parent's snapshot dir, the snapshot dir, then copies; the copy error is reported exactly when the copy fails or its source is missing; a failed copy removes the snapshot dir; on success the snapshot holds the source's contents and, for a block volume, the source's disk image (or none when the source has none); only those two paths and that image change |
| DirDriver.TransferPaths | lxd/storage/drivers/driver_dir.go:325-355 | the order of transfers: each listed snapshot's path in list order, then the volume's path |
| DirDriver.QuotaAndReceive | lxd/storage/drivers/driver_dir.go:439-474 | quota, then the main receive, then one more receive exactly when live; on success the volume holds the last transfer received; once the quota is set it succeeds exactly when those receives succeed |
| DirDriver.BackupSnapshots | lxd/storage/drivers/driver_dir.go:909-918 | copies the snapshots in order and stops at the first failed copy, which is the error; each snapshot copied before it is mirrored at snapshots/<label> |
| DirDriver.BackupSnapshotsOf | lxd/storage/drivers/driver_dir.go:894-919 | makes snapshots/ only when there is a snapshot and copies each snapshot into it; with no snapshots nothing changes; on success every snapshot is mirrored; it fails only where a step fails |
| DirDriver.RevertPaths | lxd/storage/drivers/driver_dir.go:938-942 | the revert hook removes each listed path: every path whose removal does not fail is absent, and nothing outside the listed paths changes |
| DirDriver.ExtractBackup | lxd/storage/drivers/driver_dir.go:958-1004 | detect compression, extract the container, then (with snapshots) make the snapshot dir and extract into it; the revert list gains the snapshot dir exactly once it was made; success exactly when every step succeeds, with the container's contents at the volume path and each snapshot of the tarball at its own label below the snapshot dir |
| DirDriver.Dir.Create | lxd/storage/drivers/driver_dir.go:42-71 | defaults an empty source to the pool mount path in the configuration, then fails when the source is missing, lies within the daemon directory and is not the pool path, cannot be read, or is not empty |
| DirDriver.Dir.CreateVolume | lxd/storage/drivers/driver_dir.go:229-311 | a failed mkdir changes nothing; on a later failure the cleanups ran with the path removal last (the quota's first for a filesystem volume) and, when they succeed, leave no trace; on success the volume is created with its contents, disk image or quota |
| DirDriver.Dir.CreateVolumeSnapshot | lxd/storage/drivers/driver_dir.go:816-850 | the snapshot dir under the parent's snapshot directory holds a copy of the parent volume on success, and for a block volume the parent's disk image; a failed copy removes its own snapshot dir; only those two paths and the snapshot's image change |
| DirDriver.Dir.DeleteVolumeSnapshot | lxd/storage/drivers/driver_dir.go:854-872 | removes the snapshot, then the parent's snapshot dir exactly when that was its last snapshot and it holds no files of its own; a failed removal changes nothing; success exactly when both steps succeed |
| DirDriver.Dir.RestoreVolume | lxd/storage/drivers/driver_dir.go:632-648 | an absent snapshot fails with SnapshotNotFound and changes nothing; otherwise the volume is overwritten by the snapshot exactly when the copy succeeds, and a block volume's disk image is replaced by the snapshot's (removed when the snapshot has none); nothing else changes |
| DirDriver.Dir.SnapshotThenRestore | lxd/storage/drivers/driver_dir.go:632-648 | the round trip of CreateVolumeSnapshot (lines 816-850) and RestoreVolume on a plain volume: once the snapshot exists the restore fails only when its copy does, and a restore after it gives the volume back the contents it had when the snapshot was taken, and a block volume its disk image (or its lack of one) |
| DirDriver.Dir.UpdateVolume | lxd/storage/drivers/driver_dir.go:605-624 | only filesystem volumes; only a changed size acts; then the lookup (a failed one, or id 0 with MissingVolumeID, fails unchanged), and the limit becomes the parsed size; success exactly when the size parses and the limit can be set |
| DirDriver.Dir.DeleteVolume | lxd/storage/drivers/driver_dir.go:652-695 | a volume with snapshots fails unchanged; a missing volume succeeds unchanged; otherwise on success the path is gone, the snapshot dir too when nothing else is in it, and the limit zeroed; it succeeds when the id lookup gives a nonzero id and every cleanup step succeeds |
| DirDriver.Dir.SnapshotVolume | lxd/storage/drivers/driver_dir.go:559-566 | snapshotting a volume changes only its snapshot directory, below it only the new snapshot (and its disk image, for a block volume), and the snapshot holds the volume's contents and a block volume's disk image |
| DirDriver.Dir.CopySnapshot | lxd/storage/drivers/driver_dir.go:549-566 | a round of the copy loop: the source snapshot is copied into the volume with its error ignored, then the volume is snapshotted under the label |
| DirDriver.Dir.CopyRound | lxd/storage/drivers/driver_dir.go:549-570 | a created snapshot extends the loop state by its label; a failure to create it ends the loop with the earlier snapshots' contents kept |
| DirDriver.Dir.CopySnapshots | lxd/storage/drivers/driver_dir.go:548-571 | labels are registered in input order, each only after its snapshot was created; the first failure ends the loop; each created snapshot holds the contents staged in its round |
| DirDriver.Dir.CopyFill | lxd/storage/drivers/driver_dir.go:546-590 | the snapshot loop, then the quota, then the final copy; which step failed; on success the quota applied and the source's contents copied |
| DirDriver.Dir.CopyVolume | lxd/storage/drivers/driver_dir.go:503-597 | copyVolume, which RefreshVolume calls unchanged: non-filesystem content, a failed lookup or mkdir fails before anything is made; on a later failure exactly the registered snapshots are deleted and the path removed; for a plain volume whose snapshot directory did not exist, a failure whose removals succeed leaves nothing below that directory, and a failure in the first snapshot round leaves the empty directory; on success nothing is reverted, the quota is applied, the volume holds the source and its snapshots their staged contents |
| DirDriver.Dir.CopyMade | lxd/storage/drivers/driver_dir.go:528-597 | copyVolume once the volume's directory was made: the fill, and on failure the revert, with CopyVolume's results stated from the host before the directory was made |
| DirDriver.Dir.RevertFill | lxd/storage/drivers/driver_dir.go:530-543 | the revert after a failed fill: only the volume and its snapshot directory change, the registered snapshots and (when its removal succeeds) the path are gone, and the snapshot directory is left as RevertLeaves says |
| DirDriver.EmptiesAfterRevert | lxd/storage/drivers/driver_dir.go:530-543 | when the fill added below the snapshot directory only the registered snapshots (and the directory), deleting them empties it, and a revert with nothing registered keeps the directory the first round made |
| DirDriver.AddedBelowStep | lxd/storage/drivers/driver_dir.go:559-569 | a snapshot round adds below the snapshot directory at most its own snapshot, and nothing when that snapshot's cleanup removed it |
| DirDriver.Dir.CreateVolumeFromCopy | lxd/storage/drivers/driver_dir.go:487-500 | copies the source's snapshots only when asked and the source is not a snapshot; a failed snapshot lookup fails with nothing changed; the results of copyVolume |
| DirDriver.Dir.MigrateVolume | lxd/storage/drivers/driver_dir.go:314-356 | refuses non-filesystem content and non-rsync transfers; sends each snapshot in order, then the volume; what is sent is their contents; it stops at the first failure |
| DirDriver.Dir.ReceiveRound | lxd/storage/drivers/driver_dir.go:413-437 | a round receives the next transfer into the volume, then snapshots it; the new snapshot holds that transfer |
| DirDriver.Dir.ReceiveSnapshots | lxd/storage/drivers/driver_dir.go:413-437 | snapshot names are registered in list order after each snapshot was created; the first failure ends the loop; each snapshot holds its own transfer |
| DirDriver.Dir.ReceiveFill | lxd/storage/drivers/driver_dir.go:399-477 | the pre-filler runs before anything is received; then the snapshots, the quota, the main volume and, when live, one more pass; which step failed |
| DirDriver.Dir.ReceiveRest | lxd/storage/drivers/driver_dir.go:413-474 | after the pre-filler: the snapshot loop, the quota and the main receive; which step failed; on success the quota applied and the volume holding the last transfer |
| DirDriver.Dir.CreateVolumeFromMigration | lxd/storage/drivers/driver_dir.go:359-484 | refuses non-filesystem content and non-rsync transfers before creating anything; on failure the registered snapshots and the path are removed; for a plain volume whose snapshot directory did not exist, a failure whose removals succeed leaves nothing below that directory, and a failure in the first snapshot round leaves the empty directory; on success the quota is applied, the volume holds the final transfer and each snapshot its own |
| DirDriver.Dir.MigrationMade | lxd/storage/drivers/driver_dir.go:381-484 | CreateVolumeFromMigration once the volume's directory was made: the fill, and on failure the revert, with its results stated from the host before the directory was made |
| DirDriver.Migrate | lxd/storage/drivers/driver_dir.go:325-474 | a non-live migration end to end: a stream the sender cut short is refused; when both sides succeed, the received volume and each received snapshot hold the sender's |
| DirDriver.Dir.BackupVolume | lxd/storage/drivers/driver_dir.go:881-929 | non-container volumes fail with NotImplemented and nothing written; snapshots/ is made only for a non-empty snapshot list; on success container and each snapshots/<label> mirror the volume and its snapshots |
| DirDriver.Dir.RestoreBackupVolume | lxd/storage/drivers/driver_dir.go:932-1015 | the revert list holds the volume path, plus the snapshot dir only for a non-empty snapshot list; a hook is returned exactly on success; a failure runs the hook itself, removing the volume path and, after a failed snapshot extraction, the snapshot dir even when it existed before; on success the container is extracted at the volume path and each snapshot of the tarball at its label below the snapshot dir |
| DirDriver.Dir.RestoreThenDelete | lxd/storage/drivers/driver_dir.go:652-660 | snapshots restored from a backup are the volume's snapshots: after a successful RestoreBackupVolume (lines 980-1003) with a non-empty snapshot list and tarball, DeleteVolume refuses the volume with HasSnapshots and changes nothing |
| DirDriver.Dir.RestorePostHook | lxd/storage/drivers/driver_dir.go:1008-1011 | the post hook runs setupInitialQuota on the restored volume: files untouched, only quota errors, and on success the project attached and the initial limit set |
| DirDriver.Dir.DropSnapshots | lxd/storage/drivers/driver_dir.go:536-540 | deletes each registered snapshot, in order, ignoring errors: every snapshot whose removal does not fail is gone, nothing is added and nothing outside the volume and its snapshot directory changes |
| DirDriver.Dir.RevertCopy | lxd/storage/drivers/driver_dir.go:530-543 | the revert: the registered snapshots, then the volume path, are removed; limits are unchanged |

## Left out

- Mount, Unmount, MountVolume and MountVolumeSnapshot, UnmountVolume and UnmountVolumeSnapshot: these are kernel mount calls. `MountTask` is modelled as running its callback on the volume's mount path.
- Delete, Validate, Update, Info, GetResources, GetVolumeUsage, HasVolume, ValidateVolume, VolumeSnapshots, SetVolumeQuota and the Rename operations are not part of this model. They are outside the decision-and-rollback layer modelled here. VolumeSnapshots appears only as the `ListSnapshots` step of DeleteVolume.
- The insides of rsync, tar, qemu-img and DetectCompressionFile are not modelled: bandwidth limits, progress trackers, features, the exec path, compression and component stripping. Each one is a step that may fail. On success a copy gives the destination the files held at the source's mount path and, when a block volume is snapshotted or restored, the source's disk image, removing the destination's image when the source has none. A receive takes the next transfer of the stream. A tar extraction gives the tarball member's contents. qemu-img leaves an image at root.img.
- The connection between sender and receiver is not modelled. The connection is a sequence of transfers (`seq<Tree>`), and concurrency on it is not modelled.
- The volume layer's `NewSnapshot`, `Snapshots` and `NewVolume` are outside this file. `NewSnapshot` is a step that may fail. The snapshot lists are parameters (`None` for a failed lookup). Snapshot volumes are rebuilt with the same pool, type and config.
- The `quota` package is not modelled. Its `Supported` is `Quota.QuotaSupported`: the path is in the `quotaCapable` set and exists. `Supported` fails on a missing path, and the driver treats that failure like "not supported" and returns nil, so initQuota, setQuota and deleteQuota on a missing path succeed and change nothing.
- Logging is not modelled. The warning setQuota logs when quotas are unsupported is dropped.
- Error messages become `Types.Error` kinds.
- The string semantics of `filepath.Clean`, `shared.VarPath` and `strings.HasPrefix` inside Create are not modelled. They are the abstract checks in `SourceChecks`.
- Contents are abstract trees held by one path each: a volume's files are the tree at its mount path, a block volume's image the tree at root.img inside it, and each restored snapshot the tree at its label. Nested contents below a path that the driver does not name are not tracked separately.
- DirDriver.Dir.CopyVolume: the revert deletes the volume's snapshots and path but not the quota limit that setQuota may have set. The source does the same, and the contract states this. It does not claim the revert leaves the limits unchanged.
- DirDriver.Dir.CopyVolume: the contents of the created volume and snapshots are stated only under `SourceApart` and `CopyApart`. Without them the model does not say what an overlapping copy yields.
- DirDriver.Dir.CreateVolumeFromMigration: the contents of the snapshots are stated only under `MigrationApart`, which means distinct snapshot names.
- DirDriver.Dir.CopyVolume: what the revert leaves below the snapshot directory is stated only for a plain volume of this pool whose snapshot directory did not exist before the call, when the removal of every listed snapshot's path succeeds (`RemovalsSucceed`), whether that removal is the revert's or the failing round's own cleanup. A failing removal can leave a snapshot behind, and the model does not say which.
- DirDriver.Dir.CreateVolumeFromMigration: what the revert leaves below the snapshot directory is stated under the same conditions as for CopyVolume.
- DirDriver.Dir.BackupVolume: the snapshot entries are stated only under `BackupApart`. The container entry is stated only when the target lies outside the volume.
- DirDriver.Dir.CreateVolumeSnapshot: the copy carries the files at the parent's mount path and, for a block volume, its disk image. Any other path the model holds below the parent's mount path is not copied, and any other path below the snapshot's is not removed, as rsync's mirror would do.
- DirDriver.Dir.SnapshotVolume: the same as CreateVolumeSnapshot, whose copy it is.
- DirDriver.Dir.RestoreVolume: the same restriction: only the files at the snapshot's mount path and a block volume's disk image are carried to the volume. The whole new host is stated for a filesystem volume; for a block volume the contract states the mount path, the image and that nothing else changes.
- DirDriver.Dir.SnapshotThenRestore: the round trip is stated for the mount path's files and a block volume's disk image, the two things the copies carry.
- DirDriver.Dir.BackupVolume: the copies carry only the files at each mount path. Only container volumes are backed up, and in this driver their content is a filesystem, so there is no disk image to carry.
- DirDriver.Migrate: covers only a non-live migration. For a live one, the sender's final sync pass belongs to the caller, which is not in this file.
- DirDriver.Dir.CreateVolume: "no trace" is stated only when the mount path did not exist before the call and the cleanup steps succeed. The source ignores the errors of its cleanups.
