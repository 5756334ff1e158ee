/** Path layout of a directory storage pool. Each volume lives at
    storage-pools/<pool>/<type-dir>/<name>; the snapshots of a volume live in
    its snapshot directory storage-pools/<pool>/<type-dir>-snapshots/<name>,
    one entry per snapshot label. */
module Layout {
  import opened Types
  import opened Names

  /** `p` is `root` itself or lies below it. */
  predicate Under(root: Path, p: Path)
  {
    |root| <= |p| && p[..|root|] == root
  }

  function TypeDir(t: VolumeType): string
  {
    match t
    case Custom => "custom"
    case Image => "images"
    case Container => "containers"
    case VM => "virtual-machines"
  }

  function SnapshotsTypeDir(t: VolumeType): string
  {
    TypeDir(t) + "-snapshots"
  }

  function PoolMountPath(pool: string): Path
  {
    ["storage-pools", pool]
  }

  /** Mount path of a volume; a snapshot name "parent/snap" is placed in the
      snapshot directory of `parent`. */
  function VolumeMountPath(pool: string, t: VolumeType, name: string): (p: Path)
    ensures Under(PoolMountPath(pool), p)
  {
    var (parent, snap, isSnapshot) := ParentAndSnapshotName(name);
    if isSnapshot then PoolMountPath(pool) + [SnapshotsTypeDir(t), parent, snap]
    else PoolMountPath(pool) + [TypeDir(t), name]
  }

  function SnapshotDir(pool: string, t: VolumeType, name: string): Path
  {
    PoolMountPath(pool) + [SnapshotsTypeDir(t), name]
  }

  function MountPath(v: Volume): Path
  {
    VolumeMountPath(v.pool, v.volType, v.name)
  }

  /** The raw disk image a block volume mounted at `mount` keeps inside it. */
  function DiskImagePath(mount: Path): (p: Path)
    ensures Under(mount, p) && p != mount
    ensures p[..|p| - 1] == mount && p[|p| - 1] == "root.img"
  {
    mount + ["root.img"]
  }

  /** Location of the raw disk image of a block volume, inside its mount path. */
  function VolumeDiskPath(v: Volume): (p: Path)
    ensures Under(MountPath(v), p) && p != MountPath(v)
    ensures p[..|p| - 1] == MountPath(v) && p[|p| - 1] == "root.img"
  {
    DiskImagePath(MountPath(v))
  }

  lemma TypeDirsDistinct(t1: VolumeType, t2: VolumeType)
    ensures TypeDir(t1) == TypeDir(t2) ==> t1 == t2
    ensures SnapshotsTypeDir(t1) == SnapshotsTypeDir(t2) ==> t1 == t2
    ensures TypeDir(t1) != SnapshotsTypeDir(t2)
  {
    if SnapshotsTypeDir(t1) == SnapshotsTypeDir(t2) {
      assert TypeDir(t1) == SnapshotsTypeDir(t1)[..|SnapshotsTypeDir(t1)| - 10];
      assert TypeDir(t2) == SnapshotsTypeDir(t2)[..|SnapshotsTypeDir(t2)| - 10];
    }
    var a, b := TypeDir(t1), SnapshotsTypeDir(t2);
    if |a| == |b| {
      assert a[0] != b[0];
    }
  }

  /** The snapshot "parent/snap" sits directly in the snapshot directory of parent. */
  lemma SnapshotMountPath(pool: string, t: VolumeType, parent: string, snap: string)
    requires Delimiter !in parent
    ensures VolumeMountPath(pool, t, SnapshotVolumeName(parent, snap)) == SnapshotDir(pool, t, parent) + [snap]
  {
    SplitJoin(parent, snap);
  }

  /** A volume's on-disk path is determined by its identity and shared by no other. */
  lemma MountPathInjective(pool: string, t1: VolumeType, n1: string, t2: VolumeType, n2: string)
    requires VolumeMountPath(pool, t1, n1) == VolumeMountPath(pool, t2, n2)
    ensures t1 == t2 && n1 == n2
  {
    var p1, p2 := VolumeMountPath(pool, t1, n1), VolumeMountPath(pool, t2, n2);
    TypeDirsDistinct(t1, t2);
    assert p1[2] == p2[2];
    var (a1, b1, s1) := ParentAndSnapshotName(n1);
    var (a2, b2, s2) := ParentAndSnapshotName(n2);
    if s1 && s2 {
      assert p1[3] == p2[3] && p1[4] == p2[4];
    } else {
      assert |p1| == |p2|;
    }
  }

  /** Distinct volumes: neither mount path lies below the other. */
  lemma MountPathsApart(pool: string, t1: VolumeType, n1: string, t2: VolumeType, n2: string)
    requires (t1, n1) != (t2, n2)
    ensures !Under(VolumeMountPath(pool, t1, n1), VolumeMountPath(pool, t2, n2))
  {
    var p1, p2 := VolumeMountPath(pool, t1, n1), VolumeMountPath(pool, t2, n2);
    if Under(p1, p2) {
      TypeDirsDistinct(t1, t2);
      assert p2[2] == p1[2];
      if |p1| == |p2| {
        assert p2 == p1;
        MountPathInjective(pool, t1, n1, t2, n2);
      }
    }
  }

  /** A volume that is not a snapshot and any snapshot directory are apart. */
  lemma VolumeAndSnapshotDirApart(pool: string, t1: VolumeType, n1: string, t2: VolumeType, n2: string)
    requires !IsSnapshotName(n1)
    ensures !Under(VolumeMountPath(pool, t1, n1), SnapshotDir(pool, t2, n2))
    ensures !Under(SnapshotDir(pool, t2, n2), VolumeMountPath(pool, t1, n1))
  {
    TypeDirsDistinct(t1, t2);
    assert VolumeMountPath(pool, t1, n1)[2] != SnapshotDir(pool, t2, n2)[2];
  }

  /** No snapshot directory lies at or below a volume's mount path. */
  lemma MountPathNotAboveSnapshotDir(v: Volume, pool: string, t: VolumeType, n: string)
    ensures !Under(MountPath(v), SnapshotDir(pool, t, n))
  {
    TypeDirsDistinct(v.volType, t);
    if !IsSnapshotName(v.name) {
      assert MountPath(v)[2] == TypeDir(v.volType) && SnapshotDir(pool, t, n)[2] == SnapshotsTypeDir(t);
    }
  }

  /** No volume's mount path lies at or below its own snapshot directory. */
  lemma SnapshotDirNotAboveMountPath(v: Volume, pool: string)
    ensures !Under(SnapshotDir(pool, v.volType, v.name), MountPath(v))
  {
    var (parent, snap, isSnapshot) := ParentAndSnapshotName(v.name);
    var dir := SnapshotDir(pool, v.volType, v.name);
    TypeDirsDistinct(v.volType, v.volType);
    if !isSnapshot {
      assert MountPath(v)[2] == TypeDir(v.volType) && dir[2] == SnapshotsTypeDir(v.volType);
    } else {
      assert MountPath(v)[3] == parent && dir[3] == v.name;
      assert Delimiter in v.name && Delimiter !in parent;
    }
  }

  /** The paths CreateVolumeSnapshot touches for a snapshot of a volume of
      pool `pool`: the snapshot sits directly in its parent's snapshot
      directory, and the parent volume lies outside both. */
  lemma SnapshotPaths(pool: string, snapVol: Volume)
    ensures var (parent, snap, isSnapshot) := ParentAndSnapshotName(snapVol.name);
      var src := VolumeMountPath(pool, snapVol.volType, parent);
      var dir := SnapshotDir(pool, snapVol.volType, parent);
      && !Under(MountPath(snapVol), dir)
      && (isSnapshot && snapVol.pool == pool ==>
            && MountPath(snapVol) == dir + [snap]
            && !Under(dir, src) && !Under(src, dir))
  {
    var (parent, snap, isSnapshot) := ParentAndSnapshotName(snapVol.name);
    MountPathNotAboveSnapshotDir(snapVol, pool, snapVol.volType, parent);
    if isSnapshot && snapVol.pool == pool {
      SnapshotMountPath(pool, snapVol.volType, parent, snap);
      VolumeAndSnapshotDirApart(pool, snapVol.volType, parent, snapVol.volType, parent);
    }
  }

  /** The directory that holds the snapshots of `vol` in pool `pool`: that
      of its parent volume. */
  function SnapshotDirOf(pool: string, vol: Volume): Path
  {
    SnapshotDir(pool, vol.volType, ParentAndSnapshotName(vol.name).0)
  }

  /** The mount path of the volume that `vol` is a snapshot of (of `vol`
      itself when it is not a snapshot), in pool `pool`. */
  function ParentPathOf(pool: string, vol: Volume): Path
  {
    VolumeMountPath(pool, vol.volType, ParentAndSnapshotName(vol.name).0)
  }

  /** A snapshot of `vol` has the same parent volume and snapshot directory as `vol`. */
  lemma SnapshotParents(pool: string, vol: Volume, s: Volume, snap: string)
    requires s.volType == vol.volType && s.name == SnapshotVolumeName(vol.name, snap)
    ensures SnapshotDirOf(pool, s) == SnapshotDirOf(pool, vol)
    ensures ParentPathOf(pool, s) == ParentPathOf(pool, vol)
  {
    SnapshotOfName(vol.name, snap);
  }

  /** The mount path of snapshot `snap` of `vol` in pool `pool`. */
  function SnapshotPathOf(pool: string, vol: Volume, snap: string): Path
  {
    VolumeMountPath(pool, vol.volType, SnapshotVolumeName(vol.name, snap))
  }

  /** A snapshot of `vol` is one entry directly in its snapshot directory. */
  lemma SnapshotPathShape(pool: string, vol: Volume, s1: string)
    ensures var dir := SnapshotDirOf(pool, vol);
      var p1 := SnapshotPathOf(pool, vol, s1);
      && |p1| == |dir| + 1 && p1[..|dir|] == dir && Under(dir, p1) && p1 != dir
  {
    SnapshotOfName(vol.name, s1);
  }

  /** Snapshots with different labels are apart. */
  lemma SnapshotPathsDistinct(pool: string, vol: Volume, s1: string, s2: string)
    requires s1 != s2
    ensures !Under(SnapshotPathOf(pool, vol, s1), SnapshotPathOf(pool, vol, s2))
  {
    SnapshotOfName(vol.name, s1);
    SnapshotOfName(vol.name, s2);
    var (p0, x0, isSnapshot) := ParentAndSnapshotName(vol.name);
    var p1, p2 := SnapshotPathOf(pool, vol, s1), SnapshotPathOf(pool, vol, s2);
    if Under(p1, p2) {
      assert p1[4] == p2[4];
      if isSnapshot {
        SnapshotLabelInjective(x0, s1, s2);
      }
    }
  }

  /** A snapshot of `vol` is apart from the volume. */
  lemma SnapshotPathApartFromVolume(pool: string, vol: Volume, s1: string)
    ensures !Under(SnapshotPathOf(pool, vol, s1), MountPath(vol))
  {
    SnapshotOfName(vol.name, s1);
    var (p0, x0, isSnapshot) := ParentAndSnapshotName(vol.name);
    var p1 := SnapshotPathOf(pool, vol, s1);
    if isSnapshot {
      assert |p1| == |MountPath(vol)|;
      assert p1[4] != MountPath(vol)[4] by {
        assert |p1[4]| > |x0|;
      }
    } else {
      assert p1[2] != MountPath(vol)[2];
    }
  }

  /** A volume is not its own snapshot directory. */
  lemma VolumeIsNotSnapshotDir(pool: string, vol: Volume)
    ensures MountPath(vol) != SnapshotDirOf(pool, vol)
  {
    TypeDirsDistinct(vol.volType, vol.volType);
    if !IsSnapshotName(vol.name) {
      assert MountPath(vol)[2] != SnapshotDirOf(pool, vol)[2];
    }
  }

  /** Each snapshot of `vol` is one entry directly in its snapshot directory,
      a different one per label, and apart from the volume itself. */
  lemma SnapshotPathsOf(pool: string, vol: Volume, s1: string, s2: string)
    ensures var dir := SnapshotDirOf(pool, vol);
      var p1 := SnapshotPathOf(pool, vol, s1);
      && |p1| == |dir| + 1 && p1[..|dir|] == dir && Under(dir, p1) && p1 != dir
      && (s1 != s2 ==> !Under(p1, SnapshotPathOf(pool, vol, s2)))
      && !Under(p1, MountPath(vol)) && MountPath(vol) != dir
  {
    SnapshotPathShape(pool, vol, s1);
    if s1 != s2 {
      SnapshotPathsDistinct(pool, vol, s1, s2);
    }
    SnapshotPathApartFromVolume(pool, vol, s1);
    VolumeIsNotSnapshotDir(pool, vol);
  }

  /** The layout of a backup below its target directory: the volume in
      "container" and each snapshot in "snapshots/<label>". */
  function BackupVolumePath(target: Path): Path
  {
    target + ["container"]
  }

  function BackupSnapshotsDir(target: Path): Path
  {
    target + ["snapshots"]
  }

  function BackupSnapshotPath(target: Path, snap: string): (p: Path)
    ensures Under(BackupSnapshotsDir(target), p) && p != BackupSnapshotsDir(target)
  {
    BackupSnapshotsDir(target) + [snap]
  }

  /** The entries of a backup are apart: one per snapshot label, none of
      them inside the volume's entry. */
  lemma BackupPathsApart(target: Path, a: string, b: string)
    ensures !Under(BackupSnapshotsDir(target), BackupVolumePath(target))
    ensures !Under(BackupVolumePath(target), BackupSnapshotsDir(target))
    ensures a != b ==> BackupSnapshotPath(target, a) != BackupSnapshotPath(target, b)
  {
    assert BackupVolumePath(target)[|target|] != BackupSnapshotsDir(target)[|target|];
    assert BackupSnapshotPath(target, a)[|target| + 1] == a;
  }

  /** The mount paths of the snapshots `snaps` of `vol`. */
  function SnapshotPathList(pool: string, vol: Volume, snaps: seq<string>): (ps: seq<Path>)
    ensures |ps| == |snaps| && forall j :: 0 <= j < |ps| ==> ps[j] == SnapshotPathOf(pool, vol, snaps[j])
  {
    seq(|snaps|, j requires 0 <= j < |snaps| => SnapshotPathOf(pool, vol, snaps[j]))
  }

  /** No snapshot of a volume sits at the volume's own mount path. */
  lemma SnapshotPathListAvoids(pool: string, vol: Volume, snaps: seq<string>)
    ensures var ps := SnapshotPathList(pool, vol, snaps);
      forall j :: 0 <= j < |ps| ==> ps[j] != MountPath(vol)
  {
    forall j | 0 <= j < |snaps|
      ensures SnapshotPathOf(pool, vol, snaps[j]) != MountPath(vol)
    {
      SnapshotPathsOf(pool, vol, snaps[j], snaps[j]);
    }
  }

  lemma SnapshotPathListAppend(pool: string, vol: Volume, snaps: seq<string>, snap: string)
    ensures SnapshotPathList(pool, vol, snaps + [snap]) == SnapshotPathList(pool, vol, snaps) + [SnapshotPathOf(pool, vol, snap)]
  {
    assert forall j :: 0 <= j < |snaps| ==> (snaps + [snap])[j] == snaps[j];
  }

  /** A snapshot with a new label lies apart from the listed ones, which are
      neither the volume nor its snapshot directory. */
  lemma SnapshotPathsApart(pool: string, vol: Volume, snaps: seq<string>, snap: string)
    requires snap !in snaps
    ensures var ps := SnapshotPathList(pool, vol, snaps);
      forall j :: 0 <= j < |ps| ==>
        && ps[j] != MountPath(vol) && ps[j] != SnapshotDirOf(pool, vol)
        && !Under(SnapshotPathOf(pool, vol, snap), ps[j])
  {
    forall j | 0 <= j < |snaps|
      ensures SnapshotPathOf(pool, vol, snaps[j]) != MountPath(vol)
      ensures SnapshotPathOf(pool, vol, snaps[j]) != SnapshotDirOf(pool, vol)
      ensures !Under(SnapshotPathOf(pool, vol, snap), SnapshotPathOf(pool, vol, snaps[j]))
    {
      SnapshotPathsOf(pool, vol, snap, snaps[j]);
      SnapshotPathsOf(pool, vol, snaps[j], snap);
    }
  }
}
