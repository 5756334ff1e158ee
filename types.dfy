/** Values shared by every part of the directory storage driver model:
    volumes, the abstract host filesystem with its project-quota state,
    the external steps that may fail, and the driver's error kinds. */
module Types {

  /** Go's int64, used for volume ids and byte counts. */
  newtype int64 = x: int | -0x8000_0000_0000_0000 <= x < 0x8000_0000_0000_0000

  /** Go's uint32, the width of a quota project id. */
  newtype uint32 = x: int | 0 <= x < 0x1_0000_0000

  datatype Option<T> = None | Some(value: T)

  datatype VolumeType = Custom | Image | Container | VM

  datatype ContentType = FS | Block

  /** The filesystem transfer type a migration negotiated; this driver only
      speaks rsync. */
  datatype MigrationType = RsyncMigration | OtherMigration

  /** A volume as the driver sees it for the duration of one call. */
  datatype Volume = Volume(
    pool: string,
    volType: VolumeType,
    contentType: ContentType,
    name: string,
    config: map<string, string>)

  /** A path is a sequence of components below the host's root. */
  type Path = seq<string>

  /** The contents that the path itself holds (its files), left abstract.
      Entries below a path that the driver names are separate paths. */
  type Tree = seq<int>

  /** The part of the host the driver touches.
      fs:           the existing paths and their contents;
      project:      the quota project id attached to a path (absent = 0);
      limits:       the byte limit of each quota project id;
      quotaCapable: the paths whose filesystem supports project quotas. */
  datatype Host = Host(
    fs: map<Path, Tree>,
    project: map<Path, uint32>,
    limits: map<uint32, int>,
    quotaCapable: set<Path>)

  /** Every external action the driver performs. Whether an action fails is
      decided by an oracle `fails: Step -> bool` given to each operation. */
  datatype Step =
    | MakeMountPath(path: Path)
    | MakeDirAll(path: Path)
    | MakeParentSnapshotDir(path: Path)
    | DropParentSnapshotDir(path: Path)
    | RemovePath(path: Path)
    | SetProject(path: Path, id: uint32)
    | SetProjectQuota(path: Path, id: uint32, bytes: int)
    | LocalCopy(src: Path, dst: Path)
    | RunFiller(path: Path)
    | RunPreFiller(path: Path)
    | ImageResize(path: Path)
    | ImageCreate(path: Path)
    | ListSnapshots(dir: Path)
    | NewSnapshot(parent: string, snap: string)
    | Send(path: Path)
    | Receive(index: nat)
    | DetectCompression
    | TarExtract(dst: Path)

  datatype Error =
    | MissingVolumeID
    | ContentTypeUnsupported
    | MigrationTypeUnsupported
    | HasSnapshots
    | SnapshotNotFound
    | NotImplemented
    | SourceMissing
    | SourceWithinVarDir
    | SourceNotEmpty
    | SourceUnreadable
    | NotASnapshotParent
    | VolumeIDLookupFailed
    | SourceSnapshotsLookupFailed
    | SizeParseFailed(size: string)
    | Failed(step: Step)

  /** What a backup tarball's two members extract to: backup/container,
      and each snapshot directory backup/snapshots/<label> by its label. */
  datatype BackupTarball = BackupTarball(container: Tree, snapshots: map<string, Tree>)

  /** The host after an operation, and the error it returned (None = nil). */
  datatype Outcome = Outcome(host: Host, err: Option<Error>)

  /** A Go map lookup: a missing key reads as the empty string. */
  function Get(m: map<string, string>, key: string): (v: string)
    ensures key !in m ==> v == ""
    ensures key in m ==> v == m[key]
  {
    if key in m then m[key] else ""
  }
}
