/** The directory-backed storage driver: pool creation, the volume lifecycle
    with its rollbacks, snapshots, migration and backup, as operations on an
    abstract host. */
module DirDriver {
  import opened Types
  import opened Names
  import opened Layout
  import opened HostFs
  import opened Quota
  import opened Revert

  /** A volume filler: the contents it unpacks into the mount path and, for
      a block volume, whether it also leaves a disk image behind. */
  datatype Filler = Filler(content: Tree, writesImage: bool)

  /** The string-level checks of a pool source that Create relies on.
      `poolMountPath` is the pool's mount path as the daemon spells it
      (GetPoolMountPath of the pool's name), the string form of
      `PoolMountPath(name)` below the daemon's directory. */
  datatype SourceChecks = SourceChecks(
    poolMountPath: string,
    pathExists: string -> bool,
    clean: string -> string,
    withinVarDir: string -> bool,
    isEmpty: string -> Option<bool>)

  /** A failed call's cleanups removed everything it made at and below
      `path` and left the rest of the host as it was, except that the limit
      of the volume's quota project (when `quota` names its volume id) may
      have been zeroed. */
  ghost predicate LeftNoTrace(h: Host, back: Host, path: Path, quota: Option<int64>)
  {
    && Absent(back, path) && SameOutside(h, back, path, path)
    && (back.limits == h.limits || (quota.Some? && back.limits == h.limits[ProjectID(quota.value) := 0]))
  }

  /** What CreateVolume holds when a step fails, with the cleanups it has
      registered for it: the mount path alone, or (a filesystem volume whose
      quota is set up) the mount path and then the quota. */
  ghost predicate Pending(h: Host, cur: Host, path: Path, contentType: ContentType,
                          id: Option<int64>, undo: seq<Undo>, fails: Step -> bool)
  {
    && SameOutside(h, cur, path, path) && path in cur.fs
    && (|| (&& undo == [UndoRemovePath(path)]
            && (contentType == FS && id.Some? && CleanupSucceeds(fails, path, id.value) ==>
                  cur.limits == h.limits || cur.limits == h.limits[ProjectID(id.value) := 0])
            && (!(contentType == FS && id.Some?) ==> cur.limits == h.limits))
        || (&& contentType == FS && id.Some? && id.value != 0
            && undo == [UndoRemovePath(path), UndoDeleteQuota(path, id.value)]
            && LimitsExcept(h, cur, ProjectID(id.value))
            && (path !in cur.quotaCapable ==> cur.limits == h.limits)))
  }

  /** Running the registered cleanups leaves no trace once they succeed. */
  lemma PendingUnwinds(h: Host, cur: Host, path: Path, contentType: ContentType,
                       id: Option<int64>, undo: seq<Undo>, fails: Step -> bool)
    requires Pending(h, cur, path, contentType, id, undo, fails)
    ensures (&& !fails(RemovePath(path))
             && (contentType == FS && id.Some? ==> CleanupSucceeds(fails, path, id.value))) ==>
              LeftNoTrace(h, Unwound(cur, undo, fails), path, if contentType == FS then id else None)
  {
    if !fails(RemovePath(path)) && (contentType == FS && id.Some? ==> CleanupSucceeds(fails, path, id.value)) {
      if undo == [UndoRemovePath(path)] {
        UnwindPath(h, cur, path, fails);
      } else {
        UnwindQuotaThenPath(h, cur, path, id.value, fails);
        if path in cur.quotaCapable {
          LimitsExceptUpdate(h, cur, ProjectID(id.value), 0);
        }
      }
    }
  }

  /** An external step whose effect on the host is not modelled. */
  function Attempt(h: Host, s: Step, fails: Step -> bool): (r: Outcome)
    ensures r.host == h && (r.err.Some? <==> fails(s))
  {
    if fails(s) then Fail(h, s) else Done(h)
  }

  /** A successful CreateVolume: the mount path exists with the filler's
      contents and nothing outside it changed; a block volume has its disk
      image and the same quota state; a filesystem volume has its project
      attached and the initial limit set where quotas are supported. */
  ghost predicate Created(h: Host, cur: Host, vol: Volume, filler: Option<Filler>,
                          lookup: Option<int64>, poolSize: string, parse: string -> Option<int64>)
  {
    var path := MountPath(vol);
    var id := lookup;
    var size := QuotaSize(InitialSize(Get(vol.config, "size"), poolSize), poolSize);
    && path in cur.fs && SameOutside(h, cur, path, path)
    && (filler.Some? ==> cur.fs[path] == filler.value.content)
    && (vol.contentType == Block ==>
          && VolumeDiskPath(vol) in cur.fs
          && parse(BlockSize(Get(vol.config, "size"), poolSize)).Some?
          && cur.project == h.project && cur.limits == h.limits)
    && (vol.contentType == FS ==>
          && id.Some? && id.value != 0
          && LimitsExcept(h, cur, ProjectID(id.value))
          && (path in h.quotaCapable ==>
                && path in cur.project && cur.project[path] == ProjectID(id.value)
                && parse(size).Some?
                && cur.limits == h.limits[ProjectID(id.value) := parse(size).value as int])
          && (path !in h.quotaCapable ==> cur.limits == h.limits))
  }

  /** CreateVolume once the mount path exists: the quota of a filesystem
      volume, then the filler and the disk image. Returns the host, the
      cleanups registered so far and the first error. */
  method QuotaAndFill(h: Host, made: Host, vol: Volume, filler: Option<Filler>, lookup: Option<int64>,
                      poolSize: string, parse: string -> Option<int64>, fails: Step -> bool)
    returns (cur: Host, undo: seq<Undo>, failure: Option<Error>)
    requires SameOutside(h, made, MountPath(vol), MountPath(vol)) && MountPath(vol) in made.fs
    requires made.project == h.project && made.limits == h.limits
    ensures failure.Some? ==> Pending(h, cur, MountPath(vol), vol.contentType, lookup, undo, fails)
    ensures 1 <= |undo| <= 2 && undo[0] == UndoRemovePath(MountPath(vol))
    ensures vol.contentType == Block ==> undo == [UndoRemovePath(MountPath(vol))]
    ensures var path := MountPath(vol);
      vol.contentType == FS && failure == Some(Failed(RunFiller(path))) ==>
        && lookup.Some?
        && undo == [UndoRemovePath(path), UndoDeleteQuota(path, lookup.value)]
    ensures failure.None? ==> Created(h, cur, vol, filler, lookup, poolSize, parse)
  {
    var path := MountPath(vol);
    cur, undo, failure := made, [UndoRemovePath(path)], None;
    if vol.contentType == FS {
      var q := SetupInitialQuota(cur, path, lookup, Get(vol.config, "size"),
                                 poolSize, parse, fails);
      SameOutsideTrans(h, cur, q.outcome.host, path, path);
      cur := q.outcome.host;
      if q.outcome.err.Some? {
        return cur, undo, q.outcome.err;
      }
      undo := [UndoRemovePath(path), UndoDeleteQuota(path, q.revert.value)];
    }
    var filled := FillVolume(cur, vol, filler, poolSize, parse, fails);
    SameOutsideTrans(h, cur, filled.host, path, path);
    cur := filled.host;
    failure := filled.err;
  }

  /** The part of CreateVolume after the quota: the filler and, for a block
      volume, the disk image at root.img, resized if the filler left one and
      created otherwise. Only the mount path and the image change. */
  method FillVolume(h: Host, vol: Volume, filler: Option<Filler>, poolSize: string,
                    parse: string -> Option<int64>, fails: Step -> bool) returns (r: Outcome)
    requires MountPath(vol) in h.fs
    ensures var path := MountPath(vol);
      && SameOutside(h, r.host, path, path) && path in r.host.fs
      && r.host.project == h.project && r.host.limits == h.limits
    ensures var path := MountPath(vol);
      r.err == Some(Failed(RunFiller(path))) <==> filler.Some? && fails(RunFiller(path))
    ensures vol.contentType == FS ==> (r.err.None? <==> !(filler.Some? && fails(RunFiller(MountPath(vol)))))
    ensures r.err.None? && filler.Some? ==> r.host.fs[MountPath(vol)] == filler.value.content
    ensures r.err.None? && vol.contentType == Block ==>
        && VolumeDiskPath(vol) in r.host.fs
        && parse(BlockSize(Get(vol.config, "size"), poolSize)).Some?
  {
    var path := MountPath(vol);
    var rootBlockPath := VolumeDiskPath(vol);
    r := Done(h);
    if filler.Some? {
      r := Put(h, path, filler.value.content, RunFiller(path), fails);
      if r.err.Some? {
        return;
      }
      if vol.contentType == Block && filler.value.writesImage {
        r := Done(r.host.(fs := r.host.fs[rootBlockPath := []]));
      }
    }
    if vol.contentType == Block {
      var blockSize := BlockSize(Get(vol.config, "size"), poolSize);
      var bytes := parse(blockSize);
      if bytes.None? {
        return Outcome(r.host, Some(SizeParseFailed(blockSize)));
      } else if rootBlockPath in r.host.fs {
        r := Attempt(r.host, ImageResize(rootBlockPath), fails);
      } else {
        r := Put(r.host, rootBlockPath, [], ImageCreate(rootBlockPath), fails);
      }
    }
  }

  /** DeleteVolume's removal steps for a volume that exists: the quota, the
      volume directory, then the volume's snapshot directory if empty. */
  method RemoveVolume(h: Host, path: Path, dir: Path, volID: int64, fails: Step -> bool) returns (r: Outcome)
    requires !Under(path, dir)
    ensures SameOutside(h, r.host, path, dir) && r.host.fs.Keys <= h.fs.Keys
    ensures LimitsExcept(h, r.host, ProjectID(volID))
    ensures r.err.None? ==>
      && volID != 0 && Absent(r.host, path)
      && (dir in h.fs && h.fs[dir] == [] && NoEntriesBesides(h, dir, path) ==> Absent(r.host, dir))
      && r.host.limits == (if QuotaSupported(h, path) then h.limits[ProjectID(volID) := 0] else h.limits)
    ensures volID != 0 && path in h.fs && CleanupSucceeds(fails, path, volID) && !fails(DropParentSnapshotDir(dir)) ==>
      r.err.None?
  {
    var unquota := DeleteQuota(h, path, volID, fails);
    if unquota.err.Some? {
      SameOutsideChain(h, unquota.host, unquota.host, path, dir);
      return unquota;
    }
    var removed := RemoveAll(unquota.host, path, fails);
    SameOutsideTrans(h, unquota.host, removed.host, path, path);
    if removed.err.Some? {
      SameOutsideChain(h, removed.host, removed.host, path, dir);
      return removed;
    }
    r := DropDirIfEmpty(removed.host, dir, fails);
    SameOutsideChain(h, removed.host, r.host, path, dir);
  }

  /** The snapshot `snap` of `vol` as the driver creates it, in its own pool. */
  function SnapshotOf(pool: string, vol: Volume, snap: string): (s: Volume)
    ensures MountPath(s) == SnapshotPathOf(pool, vol, snap)
    ensures s.name == SnapshotVolumeName(vol.name, snap) && s.pool == pool && s.volType == vol.volType
  {
    Volume(pool, vol.volType, vol.contentType, SnapshotVolumeName(vol.name, snap), vol.config)
  }

  /** The label of a snapshot volume: the part of its name after the parent's. */
  function Label(snapshot: Volume): string
  {
    ParentAndSnapshotName(snapshot.name).1
  }

  function Labels(snapshots: seq<Volume>): (r: seq<string>)
    ensures |r| == |snapshots| && forall j :: 0 <= j < |r| ==> r[j] == Label(snapshots[j])
  {
    seq(|snapshots|, j requires 0 <= j < |snapshots| => Label(snapshots[j]))
  }

  /** What copyVolume's snapshot loop leaves in `dst` after its first `i`
      copies, starting from `start`: a copy whose source exists and which does
      not fail replaces the contents; a failed copy, whose error is ignored,
      leaves the previous contents. */
  function Staged(h: Host, start: Tree, srcs: seq<Volume>, dst: Path, fails: Step -> bool, i: nat): Tree
    requires i <= |srcs|
  {
    if i == 0 then start
    else
      var src := MountPath(srcs[i - 1]);
      if src in h.fs && !fails(LocalCopy(src, dst)) then h.fs[src]
      else Staged(h, start, srcs, dst, fails, i - 1)
  }

  /** The contents each of copyVolume's new snapshots is taken from, in order. */
  function StagedList(h: Host, start: Tree, srcs: seq<Volume>, dst: Path, fails: Step -> bool): (r: seq<Tree>)
    ensures |r| == |srcs| && forall j :: 0 <= j < |srcs| ==> r[j] == Staged(h, start, srcs, dst, fails, j + 1)
  {
    seq(|srcs|, j requires 0 <= j < |srcs| => Staged(h, start, srcs, dst, fails, j + 1))
  }

  /** The sources of a copy into `vol` lie outside the new volume and its
      snapshot directory, the snapshot labels are distinct, and `vol` is a
      plain volume of pool `pool`. */
  ghost predicate CopyApart(pool: string, vol: Volume, srcs: seq<Volume>)
  {
    && vol.pool == pool && !IsSnapshotName(vol.name)
    && (forall j :: 0 <= j < |srcs| ==>
          !Under(MountPath(vol), MountPath(srcs[j])) && !Under(SnapshotDirOf(pool, vol), MountPath(srcs[j])))
    && (forall j, k :: 0 <= j < k < |srcs| ==> Label(srcs[j]) != Label(srcs[k]))
  }

  /** The errors CreateVolumeSnapshot can return for snapshot `snap` of `vol`. */
  predicate SnapshotError(e: Error, pool: string, vol: Volume, snap: string)
  {
    var sp := SnapshotPathOf(pool, vol, snap);
    && e.Failed?
    && (|| e.step == MakeParentSnapshotDir(SnapshotDirOf(pool, vol))
        || e.step == MakeMountPath(sp)
        || e.step == LocalCopy(ParentPathOf(pool, vol), sp))
  }

  /** Every listed snapshot of `vol` whose removal does not fail is gone. */
  ghost predicate SnapshotsGone(h: Host, pool: string, vol: Volume, snaps: seq<string>, fails: Step -> bool)
  {
    forall snap :: snap in snaps && !fails(RemovePath(SnapshotPathOf(pool, vol, snap))) ==>
      Absent(h, SnapshotPathOf(pool, vol, snap))
  }

  /** The state of the revert's snapshot loop after deleting `gone`: only
      the volume and its snapshot directory changed, nothing was added, and
      each deleted snapshot whose removal did not fail is absent. */
  ghost predicate DropLoop(h: Host, cur: Host, pool: string, vol: Volume, gone: seq<string>, fails: Step -> bool)
  {
    && SameOutside(h, cur, MountPath(vol), SnapshotDirOf(pool, vol)) && cur.limits == h.limits
    && cur.fs.Keys <= h.fs.Keys && cur.project.Keys <= h.project.Keys
    && SnapshotsGone(cur, pool, vol, gone, fails)
  }

  /** One more deleted snapshot extends the revert loop's state. */
  lemma DropLoopStep(h: Host, cur: Host, next: Host, pool: string, vol: Volume, gone: seq<string>,
                     snap: string, fails: Step -> bool)
    requires DropLoop(h, cur, pool, vol, gone, fails)
    requires SameOutside(cur, next, MountPath(vol), SnapshotDirOf(pool, vol)) && next.limits == cur.limits
    requires next.fs.Keys <= cur.fs.Keys && next.project.Keys <= cur.project.Keys
    requires SnapshotsGone(next, pool, vol, gone + [snap], fails)
    ensures DropLoop(h, next, pool, vol, gone + [snap], fails)
  {
    SameOutsideTrans(h, cur, next, MountPath(vol), SnapshotDirOf(pool, vol));
  }

  /** Removals keep what is gone gone. */
  lemma SnapshotsGoneShrink(h1: Host, h2: Host, pool: string, vol: Volume, snaps: seq<string>, fails: Step -> bool)
    requires SnapshotsGone(h1, pool, vol, snaps, fails)
    requires h2.fs.Keys <= h1.fs.Keys && h2.project.Keys <= h1.project.Keys
    ensures SnapshotsGone(h2, pool, vol, snaps, fails)
  {
  }

  /** Removals keep what is gone gone, and `snap` is gone too. */
  lemma SnapshotsGoneStep(h1: Host, h2: Host, pool: string, vol: Volume, snaps: seq<string>,
                          snap: string, fails: Step -> bool)
    requires SnapshotsGone(h1, pool, vol, snaps, fails)
    requires h2.fs.Keys <= h1.fs.Keys && h2.project.Keys <= h1.project.Keys
    requires !fails(RemovePath(SnapshotPathOf(pool, vol, snap))) ==> Absent(h2, SnapshotPathOf(pool, vol, snap))
    ensures SnapshotsGone(h2, pool, vol, snaps + [snap], fails)
  {
  }

  /** The contents after `i` rounds, read off the staged list. */
  function Latest(start: Tree, staged: seq<Tree>, i: nat): Tree
    requires i <= |staged|
  {
    if i == 0 then start else staged[i - 1]
  }

  lemma StagedLatest(h: Host, start: Tree, srcs: seq<Volume>, dst: Path, fails: Step -> bool, i: nat)
    requires i <= |srcs|
    ensures Staged(h, start, srcs, dst, fails, i) == Latest(start, StagedList(h, start, srcs, dst, fails), i)
  {
  }

  /** A copy from `srcs[i]` that leaves the source as it was at the start
      moves the volume from the i-th staged contents to the next. */
  lemma StagedStep(h: Host, before: Host, after: Host, start: Tree, srcs: seq<Volume>, path: Path,
                   fails: Step -> bool, i: nat)
    requires i < |srcs|
    requires var src := MountPath(srcs[i]);
      && At(before, src) == At(h, src)
      && path in before.fs && before.fs[path] == Latest(start, StagedList(h, start, srcs, path, fails), i)
      && path in after.fs
      && after.fs[path] == (if src in before.fs && !fails(LocalCopy(src, path)) then before.fs[src] else before.fs[path])
    ensures after.fs[path] == StagedList(h, start, srcs, path, fails)[i]
  {
    StagedLatest(h, start, srcs, path, fails, i);
  }

  /** With distinct labels, the next source's label is not yet registered. */
  lemma LabelFresh(srcs: seq<Volume>, registered: seq<string>)
    requires |registered| < |srcs| && forall j :: 0 <= j < |registered| ==> registered[j] == Label(srcs[j])
    requires forall j, k :: 0 <= j < k < |srcs| ==> Label(srcs[j]) != Label(srcs[k])
    ensures Label(srcs[|registered|]) !in registered
  {
    forall j | 0 <= j < |registered|
      ensures registered[j] != Label(srcs[|registered|])
    {
      assert Label(srcs[j]) != Label(srcs[|registered|]);
    }
  }

  /** What CopyApart says about the next round of the snapshot loop. */
  lemma ApartAt(pool: string, vol: Volume, srcs: seq<Volume>, registered: seq<string>)
    requires CopyApart(pool, vol, srcs)
    requires |registered| < |srcs| && forall j :: 0 <= j < |registered| ==> registered[j] == Label(srcs[j])
    ensures var src := MountPath(srcs[|registered|]);
      !Under(MountPath(vol), src) && !Under(SnapshotDirOf(pool, vol), src)
    ensures Label(srcs[|registered|]) !in registered
  {
    LabelFresh(srcs, registered);
  }

  /** A round keeps what the earlier snapshots hold and, when it created
      snapshot `snap` holding the next staged contents, extends it. */
  lemma SnapshotsHeld(pool: string, before: Host, after: Host, vol: Volume, registered: seq<string>,
                      snap: string, staged: seq<Tree>, created: bool)
    requires snap !in registered && |registered| < |staged|
    requires Holds(before, SnapshotPathList(pool, vol, registered), staged)
    requires SameBesides(before, after, MountPath(vol), SnapshotDirOf(pool, vol), SnapshotPathOf(pool, vol, snap))
    requires created ==> At(after, SnapshotPathOf(pool, vol, snap)).0 == Some(staged[|registered|])
    ensures Holds(after, SnapshotPathList(pool, vol, registered), staged)
    ensures created ==> Holds(after, SnapshotPathList(pool, vol, registered + [snap]), staged)
  {
    SnapshotPathsApart(pool, vol, registered, snap);
    SnapshotPathListAppend(pool, vol, registered, snap);
    HoldsExtend(before, after, MountPath(vol), SnapshotDirOf(pool, vol), SnapshotPathOf(pool, vol, snap),
                SnapshotPathList(pool, vol, registered), staged, created);
  }

  /** Where copyVolume's snapshot loop stands after the rounds that created
      the `registered` snapshots: the volume holds the latest staged contents
      and each snapshot holds the contents staged in its own round. */
  ghost predicate CopyProgress(h: Host, cur: Host, pool: string, vol: Volume, srcs: seq<Volume>,
                               registered: seq<string>, fails: Step -> bool)
  {
    var path := MountPath(vol);
    && path in h.fs && path in cur.fs && |registered| <= |srcs|
    && cur.fs[path] == Latest(h.fs[path], StagedList(h, h.fs[path], srcs, path, fails), |registered|)
    && Holds(cur, SnapshotPathList(pool, vol, registered), StagedList(h, h.fs[path], srcs, path, fails))
  }

  /** The state of copyVolume's snapshot loop after the rounds that created
      the `registered` snapshots: they are labelled after the first sources,
      only the volume and its snapshot directory changed, and under
      CopyApart the contents are as CopyProgress says. */
  ghost predicate CopyLoop(h: Host, cur: Host, pool: string, vol: Volume, srcs: seq<Volume>,
                           registered: seq<string>, fails: Step -> bool)
  {
    && vol.contentType == FS
    && |registered| <= |srcs| && (forall j :: 0 <= j < |registered| ==> registered[j] == Label(srcs[j]))
    && SameOutside(h, cur, MountPath(vol), SnapshotDirOf(pool, vol))
    && cur.limits == h.limits && MountPath(vol) in cur.fs
    && (CopyApart(pool, vol, srcs) ==> CopyProgress(h, cur, pool, vol, srcs, registered, fails))
  }

  /** With the next label fresh and the next source untouched so far, a round
      of copyVolume's snapshot loop that copied that source into the volume keeps the earlier snapshots' contents and,
      when it created its snapshot, advances the loop's progress. */
  lemma CopyRoundApart(h: Host, cur: Host, after: Host, pool: string, vol: Volume, srcs: seq<Volume>,
                       registered: seq<string>, fails: Step -> bool, created: bool)
    requires |registered| < |srcs| && Label(srcs[|registered|]) !in registered
    requires CopyProgress(h, cur, pool, vol, srcs, registered, fails)
    requires At(cur, MountPath(srcs[|registered|])) == At(h, MountPath(srcs[|registered|]))
    requires var path, dir, src := MountPath(vol), SnapshotDirOf(pool, vol), MountPath(srcs[|registered|]);
      var sp := SnapshotPathOf(pool, vol, Label(srcs[|registered|]));
      && SameBesides(cur, after, path, dir, sp) && path in after.fs
      && after.fs[path] == (if src in cur.fs && !fails(LocalCopy(src, path)) then cur.fs[src] else cur.fs[path])
      && (created ==> sp in after.fs && after.fs[sp] == after.fs[path])
    ensures var path := MountPath(vol);
      Holds(after, SnapshotPathList(pool, vol, registered), StagedList(h, h.fs[path], srcs, path, fails))
    ensures created ==> CopyProgress(h, after, pool, vol, srcs, registered + [Label(srcs[|registered|])], fails)
  {
    var path := MountPath(vol);
    var snap := Label(srcs[|registered|]);
    var staged := StagedList(h, h.fs[path], srcs, path, fails);
    StagedStep(h, cur, after, h.fs[path], srcs, path, fails, |registered|);
    SnapshotsHeld(pool, cur, after, vol, registered, snap, staged, created);
  }

  /** A round of copyVolume's snapshot loop, given what CopySnapshot
      promises about it, either advances the loop or stops it. */
  lemma CopyRoundStep(h: Host, cur: Host, r: Outcome, pool: string, vol: Volume, srcs: seq<Volume>,
                      registered: seq<string>, fails: Step -> bool)
    requires |registered| < |srcs| && CopyLoop(h, cur, pool, vol, srcs, registered, fails)
    requires var path, dir, src := MountPath(vol), SnapshotDirOf(pool, vol), MountPath(srcs[|registered|]);
      var snap := Label(srcs[|registered|]);
      && SameOutside(cur, r.host, path, dir) && SameBesides(cur, r.host, path, dir, SnapshotPathOf(pool, vol, snap))
      && r.host.limits == cur.limits && path in r.host.fs
      && (r.err.Some? ==> SnapshotError(r.err.value, pool, vol, snap))
      && r.host.fs[path] == (if src in cur.fs && !fails(LocalCopy(src, path)) then cur.fs[src] else cur.fs[path])
      && (r.err.None? && vol.pool == pool && !IsSnapshotName(vol.name) ==>
            SnapshotPathOf(pool, vol, snap) in r.host.fs && r.host.fs[SnapshotPathOf(pool, vol, snap)] == r.host.fs[path])
    ensures r.err.None? ==> CopyLoop(h, r.host, pool, vol, srcs, registered + [Label(srcs[|registered|])], fails)
    ensures r.err.Some? ==> CopyStopped(h, r, pool, vol, srcs, registered, fails)
  {
    SameOutsideTrans(h, cur, r.host, MountPath(vol), SnapshotDirOf(pool, vol));
    var next := registered + [Label(srcs[|registered|])];
    forall j | 0 <= j < |next| ensures next[j] == Label(srcs[j]) {
      if j < |registered| {
        assert next[j] == registered[j];
      }
    }
    if CopyApart(pool, vol, srcs) {
      ApartAt(pool, vol, srcs, registered);
      CopyRoundApart(h, cur, r.host, pool, vol, srcs, registered, fails, r.err.None?);
    }
  }

  /** Below the snapshot directory of `vol`, `cur` holds no path that `h`
      did not hold besides the directory itself and the snapshots `snaps`,
      and no quota project that `h` did not hold. */
  ghost predicate AddedBelow(h: Host, cur: Host, pool: string, vol: Volume, snaps: seq<string>)
  {
    var dir := SnapshotDirOf(pool, vol);
    && (forall q :: q in cur.fs && Under(dir, q) ==> q in h.fs || q == dir || q in SnapshotPathList(pool, vol, snaps))
    && (forall q :: q in cur.project && Under(dir, q) ==> q in h.project)
  }

  /** Removing each of the snapshots `snaps` of `vol` succeeds. */
  ghost predicate RemovalsSucceed(pool: string, vol: Volume, snaps: seq<string>, fails: Step -> bool)
  {
    forall j :: 0 <= j < |snaps| ==> !fails(RemovePath(SnapshotPathOf(pool, vol, snaps[j])))
  }

  /** A round that adds at most the snapshot directory and snapshot `snap`
      adds `snap` to what is new below the directory, or nothing when it
      added no snapshot. */
  lemma AddedBelowStep(h: Host, cur: Host, next: Host, pool: string, vol: Volume, snaps: seq<string>, snap: string)
    requires var dir, sp := SnapshotDirOf(pool, vol), SnapshotPathOf(pool, vol, snap);
      next.fs.Keys <= cur.fs.Keys + {dir, sp} && next.project.Keys <= cur.project.Keys
    ensures AddedBelow(h, cur, pool, vol, snaps) ==> AddedBelow(h, next, pool, vol, snaps + [snap])
    ensures var sp := SnapshotPathOf(pool, vol, snap);
      AddedBelow(h, cur, pool, vol, snaps) && (sp in next.fs ==> sp in cur.fs) ==> AddedBelow(h, next, pool, vol, snaps)
  {
    SnapshotPathListAppend(pool, vol, snaps, snap);
  }

  /** What is new below the snapshot directory since `cur` is new since
      `h` when `cur` added no path. */
  lemma AddedBelowRebase(h: Host, cur: Host, next: Host, pool: string, vol: Volume, snaps: seq<string>)
    requires cur.fs.Keys <= h.fs.Keys && cur.project.Keys <= h.project.Keys
    ensures AddedBelow(cur, next, pool, vol, snaps) ==> AddedBelow(h, next, pool, vol, snaps)
  {
  }

  /** A change at a plain volume of the pool adds nothing below its
      snapshot directory. */
  lemma AddedBelowOutside(h: Host, cur: Host, next: Host, pool: string, vol: Volume, snaps: seq<string>)
    requires SameOutside(cur, next, MountPath(vol), MountPath(vol))
    ensures vol.pool == pool && !IsSnapshotName(vol.name) && AddedBelow(h, cur, pool, vol, snaps) ==>
      AddedBelow(h, next, pool, vol, snaps)
  {
    var path, dir := MountPath(vol), SnapshotDirOf(pool, vol);
    if vol.pool == pool && !IsSnapshotName(vol.name) {
      VolumeAndSnapshotDirApart(pool, vol.volType, vol.name, vol.volType, ParentAndSnapshotName(vol.name).0);
      forall q | Under(dir, q)
        ensures At(cur, q) == At(next, q)
      {
        if Under(path, q) {
          UnderBoth(path, dir, q);
        }
      }
    }
  }

  /** The removals of a prefix of `labels`, and the one after it, succeed
      when all of them do. */
  lemma RemovalsPrefix(pool: string, vol: Volume, labels: seq<string>, registered: seq<string>, fails: Step -> bool)
    requires RemovalsSucceed(pool, vol, labels, fails)
    requires |registered| <= |labels| && forall j :: 0 <= j < |registered| ==> registered[j] == labels[j]
    ensures RemovalsSucceed(pool, vol, registered, fails)
    ensures |registered| < |labels| ==> !fails(RemovePath(SnapshotPathOf(pool, vol, labels[|registered|])))
  {
  }

  /** The revert of a copy or a migration into a plain volume: when nothing
      was below the snapshot directory at the start and every removal
      succeeds, nothing is left below it. */
  lemma RevertEmpties(h: Host, made: Host, filled: Host, back: Host, pool: string, vol: Volume,
                      registered: seq<string>, fails: Step -> bool)
    requires vol.pool == pool && !IsSnapshotName(vol.name) && Absent(h, SnapshotDirOf(pool, vol))
    requires made == WithDir(h, MountPath(vol)) && AddedBelow(made, filled, pool, vol, registered)
    requires back.fs.Keys <= filled.fs.Keys && back.project.Keys <= filled.project.Keys
    requires SnapshotsGone(back, pool, vol, registered, fails) && RemovalsSucceed(pool, vol, registered, fails)
    ensures NothingBelow(back, SnapshotDirOf(pool, vol))
  {
    var path, dir := MountPath(vol), SnapshotDirOf(pool, vol);
    var ps := SnapshotPathList(pool, vol, registered);
    VolumeAndSnapshotDirApart(pool, vol.volType, vol.name, vol.volType, ParentAndSnapshotName(vol.name).0);
    forall j | 0 <= j < |ps|
      ensures ps[j] !in back.fs
    {
      assert registered[j] in registered;
    }
  }

  /** What a failed copy or migration into `vol` leaves of the snapshot
      directory: nothing below it, for a plain volume of the pool whose
      snapshot directory did not exist in `h` and whose snapshot removals
      succeed; and the directory itself, when the first round failed once
      the directory was made. */
  ghost predicate RevertLeaves(h: Host, r: Host, pool: string, vol: Volume, labels: seq<string>,
                               firstFailed: bool, fails: Step -> bool)
  {
    var dir := SnapshotDirOf(pool, vol);
    && (vol.pool == pool && !IsSnapshotName(vol.name) && Absent(h, dir) && RemovalsSucceed(pool, vol, labels, fails) ==>
          NothingBelow(r, dir))
    && (firstFailed && !fails(MakeParentSnapshotDir(dir)) ==> dir in r.fs)
  }

  /** A failure before anything was made leaves what RevertLeaves promises. */
  lemma RevertLeavesUnchanged(h: Host, pool: string, vol: Volume, labels: seq<string>, firstFailed: bool,
                               fails: Step -> bool)
    requires !firstFailed
    ensures RevertLeaves(h, h, pool, vol, labels, firstFailed, fails)
  {
  }

  /** What the revert of a copy or a migration leaves of the snapshot
      directory, given what the fill and the revert promise. */
  lemma EmptiesAfterRevert(h: Host, made: Host, filled: Host, back: Host, pool: string, vol: Volume,
                           labels: seq<string>, registered: seq<string>, firstFailed: bool, fails: Step -> bool)
    requires made == WithDir(h, MountPath(vol))
    requires |registered| <= |labels| && forall j :: 0 <= j < |registered| ==> registered[j] == labels[j]
    requires (&& vol.pool == pool && !IsSnapshotName(vol.name)
              && (|registered| < |labels| ==> !fails(RemovePath(SnapshotPathOf(pool, vol, labels[|registered|]))))) ==>
      AddedBelow(made, filled, pool, vol, registered)
    requires back.fs.Keys <= filled.fs.Keys && back.project.Keys <= filled.project.Keys
    requires SnapshotsGone(back, pool, vol, registered, fails)
    requires registered == [] ==> back == RemoveAll(filled, MountPath(vol), fails).host
    requires var dir := SnapshotDirOf(pool, vol);
      firstFailed ==> registered == [] && (!fails(MakeParentSnapshotDir(dir)) ==> dir in filled.fs)
    ensures RevertLeaves(h, back, pool, vol, labels, firstFailed, fails)
  {
    var dir := SnapshotDirOf(pool, vol);
    if vol.pool == pool && !IsSnapshotName(vol.name) && Absent(h, dir) && RemovalsSucceed(pool, vol, labels, fails) {
      RemovalsPrefix(pool, vol, labels, registered, fails);
      RevertEmpties(h, made, filled, back, pool, vol, registered, fails);
    }
    MountPathNotAboveSnapshotDir(vol, pool, vol.volType, ParentAndSnapshotName(vol.name).0);
  }

  /** How copyVolume's snapshot loop ends when the round after the
      `registered` snapshots fails to create its snapshot. */
  ghost predicate CopyStopped(h: Host, r: Outcome, pool: string, vol: Volume, srcs: seq<Volume>,
                              registered: seq<string>, fails: Step -> bool)
  {
    var path := MountPath(vol);
    && |registered| < |srcs| && (forall j :: 0 <= j < |registered| ==> registered[j] == Label(srcs[j]))
    && SameOutside(h, r.host, path, SnapshotDirOf(pool, vol))
    && r.host.limits == h.limits && path in r.host.fs
    && r.err.Some? && SnapshotError(r.err.value, pool, vol, Label(srcs[|registered|]))
    && (CopyApart(pool, vol, srcs) ==>
          path in h.fs && Holds(r.host, SnapshotPathList(pool, vol, registered), StagedList(h, h.fs[path], srcs, path, fails)))
  }

  /** The source snapshots copyVolume copies: none when the source is itself a snapshot. */
  function SnapshotsToCopy(srcVol: Volume, srcSnapshots: seq<Volume>): (copied: seq<Volume>)
    ensures copied == [] || copied == srcSnapshots
    ensures IsSnapshotName(srcVol.name) ==> copied == []
    ensures !IsSnapshotName(srcVol.name) ==> copied == srcSnapshots
  {
    if |srcSnapshots| > 0 && !IsSnapshotName(srcVol.name) then srcSnapshots else []
  }

  /** The source volume lies outside the new volume and its snapshot directory. */
  ghost predicate SourceApart(pool: string, vol: Volume, srcVol: Volume)
  {
    !Under(MountPath(vol), MountPath(srcVol)) && !Under(SnapshotDirOf(pool, vol), MountPath(srcVol))
  }

  /** initQuota and setQuota both succeeded on `path` with project `volID`
      and size `size`, starting from `h`: on a quota-capable path that
      exists in `cur` they attached the project and set the limit. */
  ghost predicate QuotaApplied(h: Host, cur: Host, path: Path, volID: int64, size: string,
                               parse: string -> Option<int64>)
  {
    && volID != 0
    && (path in h.quotaCapable && path in cur.fs ==>
          && parse(size).Some? && path in cur.project && cur.project[path] == ProjectID(volID)
          && cur.limits == h.limits[ProjectID(volID) := parse(size).value as int])
    && (!(path in h.quotaCapable && path in cur.fs) ==> cur.limits == h.limits)
  }

  /** QuotaApplied from a host with the same limits and quota support. */
  lemma QuotaAppliedRebase(h: Host, cur: Host, next: Host, path: Path, volID: int64, size: string,
                           parse: string -> Option<int64>)
    requires cur.limits == h.limits && cur.quotaCapable == h.quotaCapable
    ensures QuotaApplied(cur, next, path, volID, size, parse) ==> QuotaApplied(h, next, path, volID, size, parse)
  {
  }

  /** initQuota then setQuota on a new volume's path, as copyVolume and
      CreateVolumeFromMigration run them; unlike setupInitialQuota, a failed
      setQuota is not rolled back here. */
  function ApplyQuota(h: Host, path: Path, volID: int64, size: string, poolSize: string,
                      parse: string -> Option<int64>, fails: Step -> bool): (r: Outcome)
    ensures r.host.fs == h.fs && SameOutside(h, r.host, path, path) && LimitsExcept(h, r.host, ProjectID(volID))
    ensures r.err == Some(MissingVolumeID) <==> volID == 0
    ensures r.err.Some? ==> QuotaError(r.err.value)
    ensures r.err.None? ==> QuotaApplied(h, r.host, path, volID, QuotaSize(size, poolSize), parse)
    ensures volID != 0 && path !in h.quotaCapable ==>
      (r.err.None? <==> parse(QuotaSize(size, poolSize)).Some?) && r.host == h
  {
    var init := InitQuota(h, path, volID, fails);
    if init.err.Some? then init
    else
      var limited := SetQuota(init.host, path, volID, size, poolSize, parse, fails);
      SameOutsideTrans(h, init.host, limited.host, path, path);
      limited
  }

  /** The end of copyVolume: initQuota and setQuota on the volume's path,
      then the copy of the source volume `src` into it. */
  method QuotaAndCopy(h: Host, path: Path, src: Path, volID: int64, size: string, poolSize: string,
                      parse: string -> Option<int64>, fails: Step -> bool) returns (r: Outcome)
    requires path in h.fs
    ensures SameOutside(h, r.host, path, path) && LimitsExcept(h, r.host, ProjectID(volID))
    ensures path in r.host.fs && FsOnlyAt(h, r.host, path)
    ensures r.err.Some? ==> QuotaError(r.err.value) || r.err.value == Failed(LocalCopy(src, path))
    ensures r.err.None? ==> QuotaApplied(h, r.host, path, volID, QuotaSize(size, poolSize), parse)
    // A failed copy leaves the limit that setQuota set.
    ensures r.err == Some(Failed(LocalCopy(src, path))) ==> QuotaApplied(h, r.host, path, volID, QuotaSize(size, poolSize), parse)
    ensures src != path ==>
      && (r.err.None? ==> src in h.fs && r.host.fs[path] == h.fs[src])
      && (src !in h.fs ==> r.err.Some?)
  {
    var limited := ApplyQuota(h, path, volID, size, poolSize, parse, fails);
    if limited.err.Some? {
      return limited;
    }
    r := Copy(limited.host, src, path, fails);
    SameOutsideTrans(h, limited.host, r.host, path, path);
  }

  /** The copy into an existing snapshot directory `snapPath`, which a
      failed copy removes again. */
  method FillSnapshot(h: Host, src: Path, snapPath: Path, block: bool, fails: Step -> bool) returns (r: Outcome)
    requires snapPath in h.fs
    ensures SameOutside(h, r.host, snapPath, snapPath) && r.host.limits == h.limits
    ensures r.host.fs.Keys <= h.fs.Keys + (if block then {DiskImagePath(snapPath)} else {})
    ensures r.host.project.Keys <= h.project.Keys
    ensures r.err.Some? <==> src !in h.fs || fails(LocalCopy(src, snapPath))
    ensures r.err.Some? ==> r.err == Some(Failed(LocalCopy(src, snapPath)))
    ensures r.err.Some? && !fails(RemovePath(snapPath)) ==> Absent(r.host, snapPath)
    ensures r.err.None? ==> snapPath in r.host.fs && r.host.project == h.project && r.host.fs[snapPath] == h.fs[src]
    ensures r.err.None? && block ==> ImageMirrored(h, r.host, src, snapPath)
  {
    r := CopyContents(h, src, snapPath, block, fails);
    if r.err.Some? {
      var removed := RemoveAll(h, snapPath, fails);
      r := Outcome(removed.host, r.err);
    }
  }

  /** The steps of CreateVolumeSnapshot on its three paths: make the parent's
      snapshot directory `dir`, make `snapPath`, copy `src` into it (with its
      disk image, for a block volume) and remove `snapPath` again when the
      copy fails. */
  method SnapshotInto(h: Host, src: Path, dir: Path, snapPath: Path, block: bool, fails: Step -> bool)
    returns (r: Outcome)
    requires !Under(snapPath, dir)
    ensures && SameOutside(h, r.host, dir, snapPath) && r.host.limits == h.limits
      && r.host.fs.Keys <= h.fs.Keys + {dir, snapPath} + (if block then {DiskImagePath(snapPath)} else {})
      && r.host.project.Keys <= h.project.Keys
      && (fails(MakeParentSnapshotDir(dir)) ==> r == Fail(h, MakeParentSnapshotDir(dir)))
      && (!fails(MakeParentSnapshotDir(dir)) ==>
            dir in r.host.fs && SameOutside(WithDir(h, dir), r.host, snapPath, snapPath))
      && SameBesides(h, r.host, dir, dir, snapPath)
    ensures && (!fails(MakeParentSnapshotDir(dir)) ==>
              (fails(MakeMountPath(snapPath)) <==> r.err == Some(Failed(MakeMountPath(snapPath)))))
      && (r.err.Some? ==>
            && r.err.value.Failed?
            && (|| r.err.value.step == MakeParentSnapshotDir(dir)
                || r.err.value.step == MakeMountPath(snapPath)
                || r.err.value.step == LocalCopy(src, snapPath)))
      && (r.err == Some(Failed(LocalCopy(src, snapPath))) && !fails(RemovePath(snapPath)) ==>
            Absent(r.host, snapPath))
      && (r.err.Some? && !fails(RemovePath(snapPath)) && snapPath !in h.fs ==> snapPath !in r.host.fs)
      && (r.err.None? ==>
            && snapPath in r.host.fs && r.host.project == h.project
            && (src in h.fs ==> r.host.fs[snapPath] == h.fs[src]))
    ensures r.err.None? && block && DiskImagePath(src) != dir && DiskImagePath(src) != snapPath ==>
      ImageMirrored(h, r.host, src, snapPath)
    ensures src != dir && src != snapPath ==>
      (r.err == Some(Failed(LocalCopy(src, snapPath))) <==>
         && !fails(MakeParentSnapshotDir(dir)) && !fails(MakeMountPath(snapPath))
         && (src !in h.fs || fails(LocalCopy(src, snapPath))))
  {
    var madeDir := MakeDir(h, MakeParentSnapshotDir(dir), fails);
    if madeDir.err.Some? {
      return madeDir;
    }
    var madeSnap := MakeDir(madeDir.host, MakeMountPath(snapPath), fails);
    if madeSnap.err.Some? {
      r := madeSnap;
    } else {
      r := FillSnapshot(madeSnap.host, src, snapPath, block, fails);
      SameOutsideTrans(madeDir.host, madeSnap.host, r.host, snapPath, snapPath);
    }
    SameOutsideChain(h, madeDir.host, r.host, dir, snapPath);
    SameOutsideBesides(madeDir.host, r.host, dir, snapPath);
    SameBesidesChain(h, madeDir.host, r.host, dir, dir, snapPath);
  }

  /** The paths MigrateVolume sends, in order: each listed snapshot of
      `vol`, then `vol` itself. */
  function TransferPaths(vol: Volume, snapshots: seq<string>): (ps: seq<Path>)
    ensures |ps| == |snapshots| + 1 && ps[|snapshots|] == MountPath(vol)
    ensures forall j :: 0 <= j < |snapshots| ==> ps[j] == MountPath(SnapshotOf(vol.pool, vol, snapshots[j]))
  {
    SnapshotPathList(vol.pool, vol, snapshots) + [MountPath(vol)]
  }

  /** `t` is what a send of `p` transfers. */
  ghost predicate Sent(h: Host, p: Path, t: Tree)
  {
    p in h.fs && t == h.fs[p]
  }

  /** The snapshot names of a migration are distinct and `vol` is a plain
      volume of pool `pool`. */
  ghost predicate MigrationApart(pool: string, vol: Volume, snapshots: seq<string>)
  {
    && vol.pool == pool && !IsSnapshotName(vol.name)
    && (forall j, k :: 0 <= j < k < |snapshots| ==> snapshots[j] != snapshots[k])
  }

  /** With distinct names, the next snapshot is not yet registered. */
  lemma NameFresh(snapshots: seq<string>, registered: seq<string>)
    requires |registered| < |snapshots| && registered == snapshots[..|registered|]
    requires forall j, k :: 0 <= j < k < |snapshots| ==> snapshots[j] != snapshots[k]
    ensures snapshots[|registered|] !in registered
  {
    forall j | 0 <= j < |registered|
      ensures registered[j] != snapshots[|registered|]
    {
      assert registered[j] == snapshots[j];
    }
  }

  /** The end of CreateVolumeFromMigration: initQuota and setQuota on the
      volume's path, then the receive of the main volume (transfer `n` of
      the stream) and, for a live migration, of its final sync (transfer n + 1). */
  method QuotaAndReceive(h: Host, path: Path, volID: int64, size: string, poolSize: string,
                         parse: string -> Option<int64>, incoming: seq<Tree>, n: nat, live: bool,
                         fails: Step -> bool) returns (r: Outcome)
    requires path in h.fs
    ensures SameOutside(h, r.host, path, path) && LimitsExcept(h, r.host, ProjectID(volID))
    ensures path in r.host.fs && FsOnlyAt(h, r.host, path)
    ensures r.err.Some? ==>
      || QuotaError(r.err.value) || r.err.value == Failed(Receive(n))
      || (live && r.err.value == Failed(Receive(n + 1)))
    ensures r.err.None? ==> QuotaApplied(h, r.host, path, volID, QuotaSize(size, poolSize), parse)
    ensures var last := if live then n + 1 else n;
      r.err.None? ==> last < |incoming| && r.host.fs[path] == incoming[last]
    // Once the quota is set, the main volume is received once, and a second
    // time exactly when the migration is live.
    ensures ApplyQuota(h, path, volID, size, poolSize, parse, fails).err.None? ==>
      (r.err.None? <==>
         && n < |incoming| && !fails(Receive(n))
         && (live ==> n + 1 < |incoming| && !fails(Receive(n + 1))))
  {
    var limited := ApplyQuota(h, path, volID, size, poolSize, parse, fails);
    if limited.err.Some? {
      return limited;
    }
    r := Recv(limited.host, path, incoming, n, fails);
    SameOutsideTrans(h, limited.host, r.host, path, path);
    if r.err.None? && live {
      var main := r.host;
      r := Recv(main, path, incoming, n + 1, fails);
      SameOutsideTrans(h, main, r.host, path, path);
    }
  }

  /** The sources of a backup into `target` lie outside it and the
      snapshot labels are distinct. */
  ghost predicate BackupApart(target: Path, vol: Volume, snaps: seq<Volume>)
  {
    && !Under(target, MountPath(vol))
    && (forall j :: 0 <= j < |snaps| ==> !Under(target, MountPath(snaps[j])))
    && (forall j, k :: 0 <= j < k < |snaps| ==> Label(snaps[j]) != Label(snaps[k]))
  }

  /** A path outside the backup's target is outside its snapshots directory. */
  lemma BackupSourceOutside(target: Path, src: Path)
    requires !Under(target, src)
    ensures !Under(BackupSnapshotsDir(target), src)
  {
    if Under(BackupSnapshotsDir(target), src) {
      assert BackupSnapshotsDir(target)[..|target|] == target;
      UnderTrans(target, BackupSnapshotsDir(target), src);
    }
  }

  /** The copy BackupVolume makes of snapshot `snap` into `target`. */
  function BackupCopy(snap: Volume, target: Path): Step
  {
    LocalCopy(MountPath(snap), BackupSnapshotPath(target, Label(snap)))
  }

  /** Where BackupVolume's snapshot loop stands after `done` copies: only
      the backup's snapshots directory changed and, under BackupApart, each
      copied snapshot's entry mirrors the snapshot. */
  ghost predicate BackupProgress(h: Host, cur: Host, target: Path, vol: Volume, snaps: seq<Volume>,
                                 done: nat, fails: Step -> bool)
  {
    var dir := BackupSnapshotsDir(target);
    && done <= |snaps|
    && SameOutside(h, cur, dir, dir) && cur.limits == h.limits && cur.project == h.project
    && h.fs.Keys <= cur.fs.Keys
    && (BackupApart(target, vol, snaps) ==>
          forall j :: 0 <= j < done ==>
            && Mirrors(h, cur, MountPath(snaps[j]), BackupSnapshotPath(target, Label(snaps[j])))
            && !fails(BackupCopy(snaps[j], target)))
  }

  /** A successful copy of snapshot `done` moves BackupVolume's snapshot
      loop one step on. */
  lemma BackupCopied(h: Host, cur: Host, next: Host, target: Path, vol: Volume, snaps: seq<Volume>, done: nat,
                     fails: Step -> bool)
    requires done < |snaps| && BackupProgress(h, cur, target, vol, snaps, done, fails)
    requires var copied := Copy(cur, MountPath(snaps[done]), BackupSnapshotPath(target, Label(snaps[done])), fails);
      copied.err.None? && next == copied.host
    ensures BackupProgress(h, next, target, vol, snaps, done + 1, fails)
  {
    var dir := BackupSnapshotsDir(target);
    var src, dst := MountPath(snaps[done]), BackupSnapshotPath(target, Label(snaps[done]));
    SameOutsideTrans(h, cur, next, dir, dir);
    if BackupApart(target, vol, snaps) {
      BackupSourceOutside(target, src);
      forall j | 0 <= j < done + 1
        ensures Mirrors(h, next, MountPath(snaps[j]), BackupSnapshotPath(target, Label(snaps[j])))
      {
        if j < done {
          BackupPathsApart(target, Label(snaps[j]), Label(snaps[done]));
        }
      }
    }
  }

  /** One round of BackupVolume's snapshot loop: copies snapshot `done`. */
  method BackupRound(h: Host, cur: Host, target: Path, vol: Volume, snaps: seq<Volume>, done: nat,
                     fails: Step -> bool) returns (copied: Outcome)
    requires done < |snaps| && BackupProgress(h, cur, target, vol, snaps, done, fails)
    ensures copied.err.None? ==> BackupProgress(h, copied.host, target, vol, snaps, done + 1, fails)
    ensures copied.err.Some? ==>
      && copied.err.value == Failed(BackupCopy(snaps[done], target))
      && BackupProgress(h, copied.host, target, vol, snaps, done, fails)
      && (BackupApart(target, vol, snaps) ==> MountPath(snaps[done]) !in h.fs || fails(BackupCopy(snaps[done], target)))
  {
    var src, dst := MountPath(snaps[done]), BackupSnapshotPath(target, Label(snaps[done]));
    if BackupApart(target, vol, snaps) {
      BackupSourceOutside(target, src);
    }
    copied := Copy(cur, src, dst, fails);
    if copied.err.None? {
      BackupCopied(h, cur, copied.host, target, vol, snaps, done, fails);
    }
  }

  /** BackupVolume's snapshot loop: copies each snapshot, in order, into
      its entry below the backup's snapshots directory; the first failed
      copy ends the loop after `done` copies. */
  method BackupSnapshots(h: Host, target: Path, vol: Volume, snaps: seq<Volume>, fails: Step -> bool)
    returns (r: Outcome, done: nat)
    ensures var dir := BackupSnapshotsDir(target);
      && SameOutside(h, r.host, dir, dir) && r.host.limits == h.limits && r.host.project == h.project
      && h.fs.Keys <= r.host.fs.Keys
    ensures done <= |snaps| && (r.err.None? <==> done == |snaps|)
    ensures r.err.Some? ==> r.err.value == Failed(BackupCopy(snaps[done], target))
    ensures BackupApart(target, vol, snaps) ==>
      && (forall j :: 0 <= j < done ==>
            Mirrors(h, r.host, MountPath(snaps[j]), BackupSnapshotPath(target, Label(snaps[j]))))
      && (forall j :: 0 <= j < done ==> !fails(BackupCopy(snaps[j], target)))
      && (r.err.Some? ==> MountPath(snaps[done]) !in h.fs || fails(BackupCopy(snaps[done], target)))
    ensures snaps == [] ==> r.host == h
  {
    r, done := Done(h), 0;
    while done < |snaps|
      invariant r.err.None? && BackupProgress(h, r.host, target, vol, snaps, done, fails)
      invariant done == 0 ==> r.host == h
    {
      var copied := BackupRound(h, r.host, target, vol, snaps, done, fails);
      if copied.err.Some? {
        return copied, done;
      }
      r := copied;
      done := done + 1;
    }
  }

  /** Copying the volume into the backup keeps the snapshot entries. */
  lemma BackupEntriesKept(h: Host, cur: Host, next: Host, target: Path, snaps: seq<Volume>)
    requires OnlyAt(cur, next, BackupVolumePath(target))
    requires forall j :: 0 <= j < |snaps| ==>
      Mirrors(h, cur, MountPath(snaps[j]), BackupSnapshotPath(target, Label(snaps[j])))
    ensures forall j :: 0 <= j < |snaps| ==>
      Mirrors(h, next, MountPath(snaps[j]), BackupSnapshotPath(target, Label(snaps[j])))
  {
    forall j | 0 <= j < |snaps|
      ensures Mirrors(h, next, MountPath(snaps[j]), BackupSnapshotPath(target, Label(snaps[j])))
    {
      var entry := BackupSnapshotPath(target, Label(snaps[j]));
      BackupPathsApart(target, Label(snaps[j]), Label(snaps[j]));
      assert At(next, entry) == At(cur, entry);
    }
  }

  /** BackupVolume's handling of the snapshot list: the backup's
      snapshots directory, made only when there is a snapshot, then the
      snapshot loop. */
  method BackupSnapshotsOf(h: Host, target: Path, vol: Volume, snaps: seq<Volume>, fails: Step -> bool)
    returns (r: Outcome)
    ensures var dir := BackupSnapshotsDir(target);
      && SameOutside(h, r.host, dir, dir) && r.host.limits == h.limits && r.host.project == h.project
      && (snaps == [] ==> r == Done(h))
      && (|snaps| > 0 && !fails(MakeDirAll(dir)) ==> dir in r.host.fs)
    ensures r.err.Some? ==>
      || (|snaps| > 0 && r.err.value == Failed(MakeDirAll(BackupSnapshotsDir(target))))
      || (exists j :: 0 <= j < |snaps| && r.err.value == Failed(BackupCopy(snaps[j], target)))
    ensures BackupApart(target, vol, snaps) && r.err.None? ==>
      forall j :: 0 <= j < |snaps| ==> Mirrors(h, r.host, MountPath(snaps[j]), BackupSnapshotPath(target, Label(snaps[j])))
    // With its sources in place, the snapshot part of a backup fails only
    // where a step fails.
    ensures BackupApart(target, vol, snaps) && (|snaps| > 0 ==> !fails(MakeDirAll(BackupSnapshotsDir(target)))) &&
            (forall j :: 0 <= j < |snaps| ==> MountPath(snaps[j]) in h.fs && !fails(BackupCopy(snaps[j], target))) ==>
      r.err.None?
  {
    var dir := BackupSnapshotsDir(target);
    var cur := h;
    if |snaps| > 0 {
      var made := MakeDir(h, MakeDirAll(dir), fails);
      if made.err.Some? {
        return made;
      }
      cur := made.host;
    }
    var done;
    r, done := BackupSnapshots(cur, target, vol, snaps, fails);
    SameOutsideTrans(h, cur, r.host, dir, dir);
    assert dir[..|target|] == target;
  }

  /** RestoreBackupVolume's revert hook: removes each path of
      `revertPaths`, in order, ignoring errors. */
  method RevertPaths(h: Host, revertPaths: seq<Path>, fails: Step -> bool) returns (r: Host)
    ensures SameOutsideAll(h, r, revertPaths) && r.limits == h.limits
    ensures r.fs.Keys <= h.fs.Keys && r.project.Keys <= h.project.Keys
    ensures forall k :: 0 <= k < |revertPaths| && !fails(RemovePath(revertPaths[k])) ==> Absent(r, revertPaths[k])
  {
    r := h;
    var i := 0;
    while i < |revertPaths|
      invariant 0 <= i <= |revertPaths|
      invariant SameOutsideAll(h, r, revertPaths[..i]) && r.limits == h.limits
      invariant r.fs.Keys <= h.fs.Keys && r.project.Keys <= h.project.Keys
      invariant forall k :: 0 <= k < i && !fails(RemovePath(revertPaths[k])) ==> Absent(r, revertPaths[k])
    {
      var removed := RemoveAll(r, revertPaths[i], fails);
      forall q | OutsideAll(revertPaths[..i + 1], q)
        ensures At(h, q) == At(removed.host, q)
      {
        assert revertPaths[..i + 1][i] == revertPaths[i];
        assert OutsideAll(revertPaths[..i], q) by {
          forall k | 0 <= k < i ensures !Under(revertPaths[..i][k], q) {
            assert revertPaths[..i][k] == revertPaths[..i + 1][k];
          }
        }
      }
      r := removed.host;
      i := i + 1;
    }
    assert revertPaths[..i] == revertPaths;
  }

  /** RestoreBackupVolume once the volume's directory exists: detects the
      tarball's compression, extracts the volume into `path` and, when the
      backup has snapshots, makes the snapshot directory `snapDir` and
      extracts them into it. `revertPaths` is the list of paths to remove
      on a revert: `path`, and `snapDir` once it was made. */
  method ExtractBackup(h: Host, path: Path, snapDir: Path, hasSnapshots: bool, tarball: BackupTarball,
                       fails: Step -> bool) returns (r: Outcome, revertPaths: seq<Path>)
    requires path != snapDir && !Under(snapDir, path)
    ensures SameOutside(h, r.host, path, snapDir) && r.host.limits == h.limits && r.host.project == h.project
    ensures h.fs.Keys <= r.host.fs.Keys
    ensures revertPaths == [path] || revertPaths == [path, snapDir]
    ensures revertPaths == [path] ==> SameOutside(h, r.host, path, path)
    ensures r.err.Some? ==> (revertPaths == [path, snapDir] <==> r.err == Some(Failed(TarExtract(snapDir))))
    ensures revertPaths == [path, snapDir] <==>
      && hasSnapshots && !fails(DetectCompression) && !fails(TarExtract(path)) && !fails(MakeDirAll(snapDir))
    ensures r.err.Some? ==>
      || r.err.value == Failed(DetectCompression) || r.err.value == Failed(TarExtract(path))
      || (hasSnapshots && (r.err.value == Failed(MakeDirAll(snapDir)) || r.err.value == Failed(TarExtract(snapDir))))
    ensures r.err.None? <==>
      && !fails(DetectCompression) && !fails(TarExtract(path))
      && (hasSnapshots ==> !fails(MakeDirAll(snapDir)) && !fails(TarExtract(snapDir)))
    ensures r.err.None? ==>
      && path in r.host.fs && r.host.fs[path] == tarball.container
      && (hasSnapshots ==>
            && snapDir in r.host.fs && tarball.snapshots.Keys <= Entries(r.host, snapDir)
            && forall l :: l in tarball.snapshots ==> r.host.fs[snapDir + [l]] == tarball.snapshots[l])
  {
    revertPaths := [path];
    if fails(DetectCompression) {
      return Fail(h, DetectCompression), revertPaths;
    }
    r := Put(h, path, tarball.container, TarExtract(path), fails);
    if r.err.Some? || !hasSnapshots {
      return r, revertPaths;
    }
    var volumeDone := r.host;
    var made := MakeDir(volumeDone, MakeDirAll(snapDir), fails);
    if made.err.Some? {
      return made, revertPaths;
    }
    revertPaths := revertPaths + [snapDir];
    r := PutBelow(made.host, snapDir, tarball.snapshots, TarExtract(snapDir), fails);
    SameOutsideTrans(volumeDone, made.host, r.host, snapDir, snapDir);
    SameOutsideChain(h, volumeDone, r.host, path, snapDir);
  }

  class Dir {
    const name: string
    var config: map<string, string>
    /** Looks up a volume's numeric id in the metadata store. */
    const getVolID: (VolumeType, string) -> Option<int64>
    /** units.ParseByteSizeString. */
    const parseByteSize: string -> Option<int64>

    constructor (name: string, config: map<string, string>,
                 getVolID: (VolumeType, string) -> Option<int64>,
                 parseByteSize: string -> Option<int64>)
      ensures this.name == name && this.config == config
      ensures this.getVolID == getVolID && this.parseByteSize == parseByteSize
    {
      this.name := name;
      this.config := config;
      this.getVolID := getVolID;
      this.parseByteSize := parseByteSize;
    }

    function PoolVolumeSize(): string
      reads this
    {
      Get(config, "volume.size")
    }

    /** Create: defaults the source to the pool mount path, then requires it
        to exist, to lie outside the daemon's directory unless it is the pool
        mount path itself, and to be empty. */
    method Create(checks: SourceChecks) returns (err: Option<Error>)
      modifies this
      ensures config == if Get(old(config), "source") == "" then old(config)["source" := checks.poolMountPath]
                        else old(config)
      ensures var src := Get(config, "source");
        err == if !checks.pathExists(src) then Some(SourceMissing)
               else if checks.withinVarDir(checks.clean(src)) && checks.clean(src) != checks.poolMountPath
               then Some(SourceWithinVarDir)
               else match checks.isEmpty(src)
                    case None => Some(SourceUnreadable)
                    case Some(empty) => if empty then None else Some(SourceNotEmpty)
    {
      if Get(config, "source") == "" {
        config := config["source" := checks.poolMountPath];
      }
      var src := config["source"];
      if !checks.pathExists(src) {
        return Some(SourceMissing);
      }
      var cleanSource := checks.clean(src);
      if checks.withinVarDir(cleanSource) && cleanSource != checks.poolMountPath {
        return Some(SourceWithinVarDir);
      }
      var isEmpty := checks.isEmpty(src);
      if isEmpty.None? {
        return Some(SourceUnreadable);
      }
      if !isEmpty.value {
        return Some(SourceNotEmpty);
      }
      return None;
    }

    /** CreateVolume: creates the mount path, sets up the quota of a
        filesystem volume, runs the filler and, for a block volume, makes sure
        a disk image exists. Each acquired resource registers a cleanup and a
        failure runs the registered cleanups last-registered first; `undone`
        lists them in the order they ran. */
    method CreateVolume(h: Host, vol: Volume, filler: Option<Filler>, fails: Step -> bool)
      returns (r: Outcome, undone: seq<Undo>)
      ensures var path := MountPath(vol);
        fails(MakeMountPath(path)) ==> r == Fail(h, MakeMountPath(path)) && undone == []
      ensures r.err.None? ==> undone == []
      // Which cleanups ran, and in which order.
      ensures var path := MountPath(vol);
        r.err.Some? && !fails(MakeMountPath(path)) ==>
          && 1 <= |undone| <= 2 && undone[|undone| - 1] == UndoRemovePath(path)
          && (vol.contentType == Block ==> undone == [UndoRemovePath(path)])
      ensures var path := MountPath(vol);
        vol.contentType == FS && r.err == Some(Failed(RunFiller(path))) ==>
          && getVolID(vol.volType, vol.name).Some?
          && undone == [UndoDeleteQuota(path, getVolID(vol.volType, vol.name).value), UndoRemovePath(path)]
      // A failure leaves no trace once its cleanups succeed.
      ensures var path := MountPath(vol);
        var id := getVolID(vol.volType, vol.name);
        (r.err.Some? && Absent(h, path) && !fails(RemovePath(path)) &&
         (vol.contentType == FS && id.Some? ==> CleanupSucceeds(fails, path, id.value))) ==>
          LeftNoTrace(h, r.host, path, if vol.contentType == FS then id else None)
      ensures r.err.None? ==> Created(h, r.host, vol, filler, getVolID(vol.volType, vol.name), PoolVolumeSize(), parseByteSize)
    {
      var path := MountPath(vol);
      var made := MakeDir(h, MakeMountPath(path), fails);
      if made.err.Some? {
        return made, [];
      }
      var cur, undo, failure := QuotaAndFill(h, made.host, vol, filler, getVolID(vol.volType, vol.name),
                                              PoolVolumeSize(), parseByteSize, fails);
      if failure.Some? {
        var back;
        back, undone := RunUndo(cur, undo, fails);
        PendingUnwinds(h, cur, path, vol.contentType, getVolID(vol.volType, vol.name), undo, fails);
        return Outcome(back, failure), undone;
      }
      return Outcome(cur, None), [];
    }

    /** CreateVolumeSnapshot: creates the parent volume's snapshot directory
        and the snapshot's own directory, then copies the parent volume into
        it; a failed copy removes the snapshot directory again. */
    method CreateVolumeSnapshot(h: Host, snapVol: Volume, fails: Step -> bool) returns (r: Outcome)
      ensures var dir, snapPath := SnapshotDirOf(name, snapVol), MountPath(snapVol);
        && SameOutside(h, r.host, dir, snapPath) && r.host.limits == h.limits
        && r.host.fs.Keys <= h.fs.Keys + {dir, snapPath} + (if snapVol.contentType == Block then {VolumeDiskPath(snapVol)} else {})
        && r.host.project.Keys <= h.project.Keys
        && (fails(MakeParentSnapshotDir(dir)) ==> r == Fail(h, MakeParentSnapshotDir(dir)))
        && (!fails(MakeParentSnapshotDir(dir)) ==>
              dir in r.host.fs && SameOutside(WithDir(h, dir), r.host, snapPath, snapPath))
        && SameBesides(h, r.host, dir, dir, snapPath)
      ensures var dir, src, snapPath := SnapshotDirOf(name, snapVol), ParentPathOf(name, snapVol), MountPath(snapVol);
        && (!fails(MakeParentSnapshotDir(dir)) ==>
              (fails(MakeMountPath(snapPath)) <==> r.err == Some(Failed(MakeMountPath(snapPath)))))
        && (r.err.Some? ==>
              && r.err.value.Failed?
              && (|| r.err.value.step == MakeParentSnapshotDir(dir)
                  || r.err.value.step == MakeMountPath(snapPath)
                  || r.err.value.step == LocalCopy(src, snapPath)))
        && (r.err == Some(Failed(LocalCopy(src, snapPath))) && !fails(RemovePath(snapPath)) ==>
              Absent(r.host, snapPath))
        // A failed call leaves no snapshot directory that was not there before.
        && (r.err.Some? && !fails(RemovePath(snapPath)) && snapPath !in h.fs ==> snapPath !in r.host.fs)
        && (r.err.None? ==>
              && snapPath in r.host.fs && r.host.project == h.project
              && (src in h.fs ==> r.host.fs[snapPath] == h.fs[src]))
      // For a snapshot of a volume of this pool, the copy fails exactly when
      // rsync fails or the parent volume does not exist.
      ensures var dir, src, snapPath := SnapshotDirOf(name, snapVol), ParentPathOf(name, snapVol), MountPath(snapVol);
        IsSnapshotName(snapVol.name) && snapVol.pool == name ==>
          && (r.err == Some(Failed(LocalCopy(src, snapPath))) <==>
                && !fails(MakeParentSnapshotDir(dir)) && !fails(MakeMountPath(snapPath))
                && (src !in h.fs || fails(LocalCopy(src, snapPath))))
      // The snapshot of a block volume takes the parent's disk image with it.
      ensures var src := ParentPathOf(name, snapVol);
        r.err.None? && IsSnapshotName(snapVol.name) && snapVol.pool == name && snapVol.contentType == Block ==>
          ImageMirrored(h, r.host, src, MountPath(snapVol))
    {
      var (parent, snap, isSnapshot) := ParentAndSnapshotName(snapVol.name);
      SnapshotPaths(name, snapVol);
      var src, dir, snapPath := ParentPathOf(name, snapVol), SnapshotDirOf(name, snapVol), MountPath(snapVol);
      if isSnapshot && snapVol.pool == name {
        assert Under(dir, snapPath);
      }
      r := SnapshotInto(h, src, dir, snapPath, snapVol.contentType == Block, fails);
    }

    /** DeleteVolumeSnapshot: removes the snapshot's directory, then the
        parent's snapshot directory if that was its last snapshot. */
    method DeleteVolumeSnapshot(h: Host, snapVol: Volume, fails: Step -> bool) returns (r: Outcome)
      ensures var snapPath := MountPath(snapVol);
        var dir := SnapshotDirOf(name, snapVol);
        && SameOutside(h, r.host, snapPath, dir) && r.host.limits == h.limits
        && (fails(RemovePath(snapPath)) ==> r == Fail(h, RemovePath(snapPath)))
        && (!fails(RemovePath(snapPath)) ==> Absent(r.host, snapPath))
        && (r.err.None? <==> !fails(RemovePath(snapPath)) && !fails(DropParentSnapshotDir(dir)))
        && r.host.fs.Keys <= h.fs.Keys && r.host.project.Keys <= h.project.Keys
      // The last snapshot takes the parent's snapshot directory with it; any
      // other snapshot leaves it in place.
      ensures var snapPath := MountPath(snapVol);
        var dir := SnapshotDirOf(name, snapVol);
        && (r.err.None? && dir in h.fs && h.fs[dir] == [] && NoEntriesBesides(h, dir, snapPath) ==> Absent(r.host, dir))
        && (dir in h.fs && !Under(snapPath, dir) && !(h.fs[dir] == [] && NoEntriesBesides(h, dir, snapPath)) ==>
              dir in r.host.fs)
    {
      var snapPath := MountPath(snapVol);
      var dir := SnapshotDirOf(name, snapVol);
      var removed := RemoveAll(h, snapPath, fails);
      if removed.err.Some? {
        return removed;
      }
      r := DropDirIfEmpty(removed.host, dir, fails);
      SameOutsideTrans(h, removed.host, r.host, snapPath, dir);
      if dir in h.fs && !Under(snapPath, dir) && h.fs[dir] == [] && !NoEntriesBesides(h, dir, snapPath) {
        var q :| q in h.fs && Under(dir, q) && q != dir && !Under(snapPath, q);
        assert q in removed.host.fs;
      }
    }

    /** RestoreVolume: copies the named snapshot over the volume (with its
        disk image, for a block volume), or fails with SnapshotNotFound,
        copying nothing, when the snapshot is absent. */
    method RestoreVolume(h: Host, vol: Volume, snapshotName: string, fails: Step -> bool) returns (r: Outcome)
      ensures var src := VolumeMountPath(name, vol.volType, SnapshotVolumeName(vol.name, snapshotName));
        && (src !in h.fs ==> r == Outcome(h, Some(SnapshotNotFound)))
        && (src in h.fs ==> (r.err.None? <==> !fails(LocalCopy(src, MountPath(vol)))))
        && (r.err.Some? ==> r.host == h)
        && (r.err.None? && vol.contentType == FS ==> r.host == h.(fs := h.fs[MountPath(vol) := h.fs[src]]))
      ensures var src, path := VolumeMountPath(name, vol.volType, SnapshotVolumeName(vol.name, snapshotName)), MountPath(vol);
        r.err.None? && vol.contentType == Block ==>
          && path in r.host.fs && r.host.fs[path] == h.fs[src] && ImageMirrored(h, r.host, src, path)
          && SameBesides(h, r.host, path, DiskImagePath(path), DiskImagePath(path))
          && r.host.project == h.project && r.host.limits == h.limits
    {
      var src := VolumeMountPath(name, vol.volType, SnapshotVolumeName(vol.name, snapshotName));
      if src !in h.fs {
        return Outcome(h, Some(SnapshotNotFound));
      }
      r := CopyContents(h, src, MountPath(vol), vol.contentType == Block, fails);
    }

    /** A snapshot of a plain volume restores the volume to what it held
        when the snapshot was taken, disk image included for a block volume:
        SnapshotVolume, then RestoreVolume from that snapshot. Once the
        snapshot exists, the restore fails only when its copy does. */
    method SnapshotThenRestore(h: Host, vol: Volume, snap: string, fails: Step -> bool)
      returns (snapped: Outcome, restored: Outcome)
      requires vol.pool == name && !IsSnapshotName(vol.name) && MountPath(vol) in h.fs
      ensures snapped.err.None? ==>
        (restored.err.None? <==> !fails(LocalCopy(SnapshotPathOf(name, vol, snap), MountPath(vol))))
      ensures snapped.err.None? && restored.err.None? ==>
        MountPath(vol) in restored.host.fs && restored.host.fs[MountPath(vol)] == h.fs[MountPath(vol)]
      ensures snapped.err.None? && restored.err.None? && vol.contentType == Block ==>
        ImageMirrored(h, restored.host, MountPath(vol), MountPath(vol))
    {
      snapped := SnapshotVolume(h, vol, snap, fails);
      restored := RestoreVolume(snapped.host, vol, snap, fails);
    }

    /** UpdateVolume: only filesystem volumes; a changed "size" is applied
        through setQuota, anything else needs no action. */
    method UpdateVolume(h: Host, vol: Volume, changedConfig: map<string, string>, fails: Step -> bool)
      returns (r: Outcome)
      ensures vol.contentType != FS ==> r == Outcome(h, Some(ContentTypeUnsupported))
      ensures vol.contentType == FS && "size" !in changedConfig ==> r == Outcome(h, None)
      ensures vol.contentType == FS && "size" in changedConfig && getVolID(vol.volType, vol.name).None? ==>
                r == Outcome(h, Some(VolumeIDLookupFailed))
      ensures vol.contentType == FS && "size" in changedConfig && getVolID(vol.volType, vol.name) == Some(0) ==>
                r == Outcome(h, Some(MissingVolumeID))
      ensures r.host.fs == h.fs && r.host.project == h.project && r.host.quotaCapable == h.quotaCapable
      ensures r.err.Some? ==> r.host == h
      ensures var size := QuotaSize(Get(changedConfig, "size"), PoolVolumeSize());
        var id := getVolID(vol.volType, vol.name);
        r.err.None? && "size" in changedConfig && QuotaSupported(h, MountPath(vol)) ==>
          && id.Some? && parseByteSize(size).Some?
          && r.host.limits == h.limits[ProjectID(id.value) := parseByteSize(size).value as int]
      ensures var size := QuotaSize(Get(changedConfig, "size"), PoolVolumeSize());
        var id := getVolID(vol.volType, vol.name);
        vol.contentType == FS && "size" in changedConfig && id.Some? && id.value != 0 ==>
          (r.err.None? <==>
             && parseByteSize(size).Some?
             && (QuotaSupported(h, MountPath(vol)) ==>
                   !fails(SetProjectQuota(MountPath(vol), ProjectID(id.value), parseByteSize(size).value as int))))
    {
      if vol.contentType != FS {
        return Outcome(h, Some(ContentTypeUnsupported));
      }
      if "size" in changedConfig {
        var volID := getVolID(vol.volType, vol.name);
        if volID.None? {
          return Outcome(h, Some(VolumeIDLookupFailed));
        }
        return SetQuota(h, MountPath(vol), volID.value, changedConfig["size"], PoolVolumeSize(), parseByteSize, fails);
      }
      return Outcome(h, None);
    }

    /** DeleteVolume: refuses a volume that still has snapshots and does
        nothing for a volume that does not exist; otherwise deletes the quota,
        the volume directory and the volume's (empty) snapshot directory. */
    method DeleteVolume(h: Host, vol: Volume, fails: Step -> bool) returns (r: Outcome)
      ensures var dir := SnapshotDir(name, vol.volType, vol.name);
        && (fails(ListSnapshots(dir)) ==> r == Fail(h, ListSnapshots(dir)))
        && (!fails(ListSnapshots(dir)) && Entries(h, dir) != {} ==> r == Outcome(h, Some(HasSnapshots)))
        && (!fails(ListSnapshots(dir)) && Entries(h, dir) == {} && MountPath(vol) !in h.fs ==> r == Outcome(h, None))
      ensures var dir := SnapshotDir(name, vol.volType, vol.name);
        && SameOutside(h, r.host, MountPath(vol), dir) && r.host.fs.Keys <= h.fs.Keys
        && (getVolID(vol.volType, vol.name).None? ==> r.host.limits == h.limits)
        && (getVolID(vol.volType, vol.name).Some? ==>
              LimitsExcept(h, r.host, ProjectID(getVolID(vol.volType, vol.name).value)))
      // Deleting a volume that exists, when every step succeeds.
      ensures var dir := SnapshotDir(name, vol.volType, vol.name);
        var path := MountPath(vol);
        var id := getVolID(vol.volType, vol.name);
        r.err.None? && path in h.fs ==>
          && !fails(ListSnapshots(dir)) && Entries(h, dir) == {}
          && id.Some? && id.value != 0
          && Absent(r.host, path)
          && (dir in h.fs && h.fs[dir] == [] && NoEntriesBesides(h, dir, path) ==> Absent(r.host, dir))
          && r.host.limits == (if path in h.quotaCapable then h.limits[ProjectID(id.value) := 0] else h.limits)
      // And it succeeds when the volume has no snapshots, has a volume ID and
      // every cleanup step succeeds.
      ensures var dir := SnapshotDir(name, vol.volType, vol.name);
        var path := MountPath(vol);
        var id := getVolID(vol.volType, vol.name);
        (&& path in h.fs && !fails(ListSnapshots(dir)) && Entries(h, dir) == {}
         && id.Some? && id.value != 0 && CleanupSucceeds(fails, path, id.value)
         && !fails(DropParentSnapshotDir(dir))) ==> r.err.None?
    {
      var dir := SnapshotDir(name, vol.volType, vol.name);
      if fails(ListSnapshots(dir)) {
        return Fail(h, ListSnapshots(dir));
      }
      if Entries(h, dir) != {} {
        return Outcome(h, Some(HasSnapshots));
      }
      var path := MountPath(vol);
      if path !in h.fs {
        return Outcome(h, None);
      }
      MountPathNotAboveSnapshotDir(vol, name, vol.volType, vol.name);
      var volID := getVolID(vol.volType, vol.name);
      if volID.None? {
        return Outcome(h, Some(VolumeIDLookupFailed));
      }
      r := RemoveVolume(h, path, dir, volID.value, fails);
    }

    /** CreateVolumeSnapshot of `vol` under label `snap`, seen from `vol`:
        only the snapshot directory changes, below it only the new snapshot,
        and the new snapshot holds what the volume holds. */
    method SnapshotVolume(h: Host, vol: Volume, snap: string, fails: Step -> bool) returns (r: Outcome)
      ensures var path, dir, sp := MountPath(vol), SnapshotDirOf(name, vol), SnapshotPathOf(name, vol, snap);
        && SameOutside(h, r.host, dir, dir) && SameBesides(h, r.host, dir, dir, sp)
        && r.host.limits == h.limits && At(r.host, path) == At(h, path)
        && (r.err.Some? ==> SnapshotError(r.err.value, name, vol, snap))
      ensures var path, sp := MountPath(vol), SnapshotPathOf(name, vol, snap);
        r.err.None? && vol.pool == name && !IsSnapshotName(vol.name) && path in h.fs ==>
          sp in r.host.fs && r.host.fs[sp] == h.fs[path]
      ensures var path, sp := MountPath(vol), SnapshotPathOf(name, vol, snap);
        r.err.None? && vol.pool == name && !IsSnapshotName(vol.name) && vol.contentType == Block ==>
          ImageMirrored(h, r.host, path, sp)
      // It adds at most the snapshot directory and the snapshot (with its disk
      // image, for a block volume), and a failure whose cleanup succeeds adds
      // no snapshot.
      ensures var dir, sp := SnapshotDirOf(name, vol), SnapshotPathOf(name, vol, snap);
        && r.host.fs.Keys <= h.fs.Keys + {dir, sp} + (if vol.contentType == Block then {DiskImagePath(sp)} else {})
        && r.host.project.Keys <= h.project.Keys
        && (r.err.Some? && !fails(RemovePath(sp)) && sp !in h.fs ==> sp !in r.host.fs)
        && (!fails(MakeParentSnapshotDir(dir)) ==> dir in r.host.fs)
    {
      var snapVol := SnapshotOf(name, vol, snap);
      SnapshotParents(name, vol, snapVol, snap);
      SnapshotPathsOf(name, vol, snap, snap);
      r := CreateVolumeSnapshot(h, snapVol, fails);
      SameOutsideWithin(h, r.host, SnapshotDirOf(name, vol), SnapshotPathOf(name, vol, snap));
    }

    /** One round of copyVolume's snapshot loop: copies `src` into the
        volume, ignoring the copy's error, then snapshots the volume as `snap`. */
    method CopySnapshot(h: Host, vol: Volume, src: Path, snap: string, fails: Step -> bool) returns (r: Outcome)
      requires vol.contentType == FS && MountPath(vol) in h.fs
      ensures var path, dir := MountPath(vol), SnapshotDirOf(name, vol);
        && SameOutside(h, r.host, path, dir) && SameBesides(h, r.host, path, dir, SnapshotPathOf(name, vol, snap))
        && r.host.limits == h.limits && path in r.host.fs
        && (r.err.Some? ==> SnapshotError(r.err.value, name, vol, snap))
        && r.host.fs[path] == (if src in h.fs && !fails(LocalCopy(src, path)) then h.fs[src] else h.fs[path])
      ensures var path, sp := MountPath(vol), SnapshotPathOf(name, vol, snap);
        r.err.None? && vol.pool == name && !IsSnapshotName(vol.name) ==>
          sp in r.host.fs && r.host.fs[sp] == r.host.fs[path]
      ensures var dir, sp := SnapshotDirOf(name, vol), SnapshotPathOf(name, vol, snap);
        && r.host.fs.Keys <= h.fs.Keys + {dir, sp} && r.host.project.Keys <= h.project.Keys
        && (r.err.Some? && !fails(RemovePath(sp)) && sp !in h.fs ==> sp !in r.host.fs)
        && (!fails(MakeParentSnapshotDir(dir)) ==> dir in r.host.fs)
    {
      var path, dir := MountPath(vol), SnapshotDirOf(name, vol);
      var copied := Copy(h, src, path, fails);
      SnapshotPathApartFromVolume(name, vol, snap);
      r := SnapshotVolume(copied.host, vol, snap, fails);
      SameOutsideChain(h, copied.host, r.host, path, dir);
      SameBesidesChain(h, copied.host, r.host, path, dir, SnapshotPathOf(name, vol, snap));
    }

    /** One round of copyVolume's snapshot loop: copies the next source
        snapshot into the volume and snapshots the volume under its label. */
    method CopyRound(h: Host, cur: Host, vol: Volume, srcs: seq<Volume>, registered: seq<string>,
                     fails: Step -> bool) returns (created: Outcome)
      requires |registered| < |srcs| && CopyLoop(h, cur, name, vol, srcs, registered, fails)
      ensures created.err.None? ==> CopyLoop(h, created.host, name, vol, srcs, registered + [Label(srcs[|registered|])], fails)
      ensures created.err.Some? ==> CopyStopped(h, created, name, vol, srcs, registered, fails)
      ensures var snap := Label(srcs[|registered|]);
        AddedBelow(h, cur, name, vol, registered) ==>
          && (created.err.None? ==> AddedBelow(h, created.host, name, vol, registered + [snap]))
          && (created.err.Some? && !fails(RemovePath(SnapshotPathOf(name, vol, snap))) ==>
                AddedBelow(h, created.host, name, vol, registered))
      ensures !fails(MakeParentSnapshotDir(SnapshotDirOf(name, vol))) ==> SnapshotDirOf(name, vol) in created.host.fs
    {
      var path := MountPath(vol);
      var snap := Label(srcs[|registered|]);
      created := CopySnapshot(cur, vol, MountPath(srcs[|registered|]), snap, fails);
      CopyRoundStep(h, cur, created, name, vol, srcs, registered, fails);
      AddedBelowStep(h, cur, created.host, name, vol, registered, snap);
    }

    /** copyVolume's snapshot loop: each source snapshot is copied into the
        new volume and the volume is then snapshotted under the source
        snapshot's label. `registered` lists the labels whose snapshot was
        created, in order; the first failure to create a snapshot ends the loop. */
    method CopySnapshots(h: Host, vol: Volume, srcSnapshots: seq<Volume>, fails: Step -> bool)
      returns (r: Outcome, registered: seq<string>)
      requires vol.contentType == FS && MountPath(vol) in h.fs
      ensures SameOutside(h, r.host, MountPath(vol), SnapshotDirOf(name, vol))
      ensures r.host.limits == h.limits && MountPath(vol) in r.host.fs
      ensures |registered| <= |srcSnapshots|
      ensures forall j :: 0 <= j < |registered| ==> registered[j] == Label(srcSnapshots[j])
      ensures r.err.None? <==> |registered| == |srcSnapshots|
      ensures r.err.Some? ==> SnapshotError(r.err.value, name, vol, Label(srcSnapshots[|registered|]))
      ensures var path := MountPath(vol);
        CopyApart(name, vol, srcSnapshots) ==>
          && (r.err.None? ==> r.host.fs[path] == Latest(h.fs[path], StagedList(h, h.fs[path], srcSnapshots, path, fails), |registered|))
          && Holds(r.host, SnapshotPathList(name, vol, registered), StagedList(h, h.fs[path], srcSnapshots, path, fails))
      // Below the snapshot directory only the created snapshots are new,
      // unless the failing round could not remove its own snapshot.
      ensures (r.err.Some? ==> !fails(RemovePath(SnapshotPathOf(name, vol, Label(srcSnapshots[|registered|]))))) ==>
        AddedBelow(h, r.host, name, vol, registered)
      ensures var dir := SnapshotDirOf(name, vol);
        srcSnapshots != [] && registered == [] && !fails(MakeParentSnapshotDir(dir)) ==> dir in r.host.fs
    {
      r, registered := Done(h), [];
      var i := 0;
      while i < |srcSnapshots|
        invariant 0 <= i <= |srcSnapshots| && |registered| == i
        invariant r.err.None? && CopyLoop(h, r.host, name, vol, srcSnapshots, registered, fails)
        invariant AddedBelow(h, r.host, name, vol, registered)
      {
        var created := CopyRound(h, r.host, vol, srcSnapshots, registered, fails);
        if created.err.Some? {
          return created, registered;
        }
        registered := registered + [Label(srcSnapshots[i])];
        r := created;
        i := i + 1;
      }
    }

    /** copyVolume once the volume's directory exists: the snapshot loop,
        then initQuota and setQuota, then the copy of the source volume.
        The caller runs the revert when this fails. */
    method CopyFill(h: Host, vol: Volume, srcVol: Volume, copied: seq<Volume>, volID: int64, fails: Step -> bool)
      returns (r: Outcome, registered: seq<string>)
      requires vol.contentType == FS && MountPath(vol) in h.fs
      ensures var path, dir := MountPath(vol), SnapshotDirOf(name, vol);
        && SameOutside(h, r.host, path, dir) && LimitsExcept(h, r.host, ProjectID(volID))
        && path in r.host.fs && r.host.fs.Keys <= h.fs.Keys + r.host.fs.Keys
        && (copied == [] ==> SameOutside(h, r.host, path, path))
      ensures |registered| <= |copied| && forall j :: 0 <= j < |registered| ==> registered[j] == Label(copied[j])
      ensures |registered| < |copied| ==> r.err.Some? && SnapshotError(r.err.value, name, vol, Label(copied[|registered|]))
      ensures r.err.Some? && |registered| == |copied| ==>
        QuotaError(r.err.value) || r.err.value == Failed(LocalCopy(MountPath(srcVol), MountPath(vol)))
      ensures var path, size := MountPath(vol), QuotaSize(Get(vol.config, "size"), PoolVolumeSize());
        r.err.None? ==> |registered| == |copied| && QuotaApplied(h, r.host, path, volID, size, parseByteSize)
      // A failed copy of the source leaves the limit that setQuota set.
      ensures var path, size := MountPath(vol), QuotaSize(Get(vol.config, "size"), PoolVolumeSize());
        |registered| == |copied| && r.err == Some(Failed(LocalCopy(MountPath(srcVol), path))) ==>
          QuotaApplied(h, r.host, path, volID, size, parseByteSize)
      ensures var path, src := MountPath(vol), MountPath(srcVol);
        SourceApart(name, vol, srcVol) ==>
          && (r.err.None? ==> src in h.fs && r.host.fs[path] == h.fs[src])
          && (src !in h.fs ==> r.err.Some?)
      ensures var path := MountPath(vol);
        CopyApart(name, vol, copied) ==>
          Holds(r.host, SnapshotPathList(name, vol, registered), StagedList(h, h.fs[path], copied, path, fails))
      ensures (&& vol.pool == name && !IsSnapshotName(vol.name)
               && (|registered| < |copied| ==> !fails(RemovePath(SnapshotPathOf(name, vol, Label(copied[|registered|])))))) ==>
        AddedBelow(h, r.host, name, vol, registered)
      ensures var dir := SnapshotDirOf(name, vol);
        copied != [] && registered == [] && !fails(MakeParentSnapshotDir(dir)) ==> dir in r.host.fs
    {
      var path, src := MountPath(vol), MountPath(srcVol);
      var cur := h;
      registered := [];
      if copied != [] {
        var snapped;
        snapped, registered := CopySnapshots(h, vol, copied, fails);
        if snapped.err.Some? {
          return snapped, registered;
        }
        cur := snapped.host;
      }
      r := QuotaAndCopy(cur, path, src, volID, Get(vol.config, "size"), PoolVolumeSize(), parseByteSize, fails);
      SameOutsideTrans(h, cur, r.host, path, SnapshotDirOf(name, vol));
      AddedBelowOutside(h, cur, r.host, name, vol, registered);
      if CopyApart(name, vol, copied) {
        SnapshotPathListAvoids(name, vol, registered);
        HoldsFsOnlyAt(cur, r.host, path, SnapshotPathList(name, vol, registered),
                      StagedList(h, h.fs[path], copied, path, fails));
      }
    }

    /** Whether copyVolume gets past its checks and makes the volume's directory. */
    predicate CopyStarts(vol: Volume, srcVol: Volume, fails: Step -> bool)
    {
      && vol.contentType == FS && srcVol.contentType == FS
      && getVolID(vol.volType, vol.name).Some? && !fails(MakeMountPath(MountPath(vol)))
    }

    /** copyVolume, behind CreateVolumeFromCopy and RefreshVolume: copies
        `srcVol` and the given source snapshots into the new volume `vol`.
        On a failure after the volume's directory was made it deletes the
        snapshots it created, listed in `reverted`, and the volume path. */
    method CopyVolume(h: Host, vol: Volume, srcVol: Volume, srcSnapshots: seq<Volume>, fails: Step -> bool)
      returns (r: Outcome, reverted: seq<string>)
      ensures var id := getVolID(vol.volType, vol.name);
        var path := MountPath(vol);
        && (vol.contentType != FS || srcVol.contentType != FS ==>
              r == Outcome(h, Some(ContentTypeUnsupported)) && reverted == [])
        && (vol.contentType == FS && srcVol.contentType == FS && id.None? ==>
              r == Outcome(h, Some(VolumeIDLookupFailed)) && reverted == [])
        && (vol.contentType == FS && srcVol.contentType == FS && id.Some? && fails(MakeMountPath(path)) ==>
              r == Fail(h, MakeMountPath(path)) && reverted == [])
        && (id.Some? ==> LimitsExcept(h, r.host, ProjectID(id.value)))
        && (id.None? ==> r.host == h)
      ensures var path, dir := MountPath(vol), SnapshotDirOf(name, vol);
        && SameOutside(h, r.host, path, dir)
        && (SnapshotsToCopy(srcVol, srcSnapshots) == [] ==> SameOutside(h, r.host, path, path))
      // The revert: the snapshots it deleted, and the volume path.
      ensures var copied, path := SnapshotsToCopy(srcVol, srcSnapshots), MountPath(vol);
        && |reverted| <= |copied| && (forall j :: 0 <= j < |reverted| ==> reverted[j] == Label(copied[j]))
        && (!CopyStarts(vol, srcVol, fails) ==> r.err.Some? && r.host == h && reverted == [])
        && (r.err.Some? ==> SnapshotsGone(r.host, name, vol, reverted, fails))
        && (r.err.Some? && CopyStarts(vol, srcVol, fails) && !fails(RemovePath(path)) ==> Absent(r.host, path))
        && (r.err.Some? && CopyStarts(vol, srcVol, fails) && |reverted| < |copied| ==>
              SnapshotError(r.err.value, name, vol, Label(copied[|reverted|])))
      ensures var id, size := getVolID(vol.volType, vol.name), QuotaSize(Get(vol.config, "size"), PoolVolumeSize());
        var path, src := MountPath(vol), MountPath(srcVol);
        && (r.err.None? ==>
              && id.Some? && reverted == [] && path in r.host.fs
              && QuotaApplied(h, r.host, path, id.value, size, parseByteSize))
        && (r.err.None? && SourceApart(name, vol, srcVol) ==> src in h.fs && r.host.fs[path] == h.fs[src])
        && (r.err == Some(Failed(LocalCopy(src, path))) && |reverted| == |SnapshotsToCopy(srcVol, srcSnapshots)|
            && path in h.quotaCapable ==>
              && id.Some? && parseByteSize(size).Some?
              && r.host.limits == h.limits[ProjectID(id.value) := parseByteSize(size).value as int])
      ensures var copied, path := SnapshotsToCopy(srcVol, srcSnapshots), MountPath(vol);
        r.err.None? && CopyApart(name, vol, copied) ==>
          Holds(r.host, SnapshotPathList(name, vol, Labels(copied)),
                StagedList(WithDir(h, path), WithDir(h, path).fs[path], copied, path, fails))
      // For a plain volume whose snapshot directory did not exist, a failure
      // whose removals succeed leaves nothing below that directory; when
      // the first round fails once the directory was made, the revert has
      // no snapshot to delete and the empty directory stays.
      ensures var copied := SnapshotsToCopy(srcVol, srcSnapshots);
        r.err.Some? ==>
          RevertLeaves(h, r.host, name, vol, Labels(copied), CopyStarts(vol, srcVol, fails) && copied != [] && reverted == [], fails)
    {
      var labels := Labels(SnapshotsToCopy(srcVol, srcSnapshots));
      if vol.contentType != FS || srcVol.contentType != FS {
        RevertLeavesUnchanged(h, name, vol, labels, false, fails);
        return Outcome(h, Some(ContentTypeUnsupported)), [];
      }
      var volID := getVolID(vol.volType, vol.name);
      if volID.None? {
        RevertLeavesUnchanged(h, name, vol, labels, false, fails);
        return Outcome(h, Some(VolumeIDLookupFailed)), [];
      }
      var made := MakeDir(h, MakeMountPath(MountPath(vol)), fails);
      if made.err.Some? {
        RevertLeavesUnchanged(h, name, vol, labels, false, fails);
        return made, [];
      }
      r, reverted := CopyMade(h, made, vol, srcVol, SnapshotsToCopy(srcVol, srcSnapshots), volID.value, fails);
    }

    /** copyVolume once its checks passed and the volume's directory was
        made (`made` from `h`): the fill, then the revert when the fill fails. */
    method CopyMade(h: Host, made: Outcome, vol: Volume, srcVol: Volume, copied: seq<Volume>, volID: int64,
                    fails: Step -> bool) returns (r: Outcome, reverted: seq<string>)
      requires made == MakeDir(h, MakeMountPath(MountPath(vol)), fails) && made.err.None?
      requires vol.contentType == FS
      ensures var path, dir := MountPath(vol), SnapshotDirOf(name, vol);
        && LimitsExcept(h, r.host, ProjectID(volID))
        && SameOutside(h, r.host, path, dir) && (copied == [] ==> SameOutside(h, r.host, path, path))
      ensures var path := MountPath(vol);
        && |reverted| <= |copied| && (forall j :: 0 <= j < |reverted| ==> reverted[j] == Label(copied[j]))
        && (r.err.Some? ==> SnapshotsGone(r.host, name, vol, reverted, fails))
        && (r.err.Some? && !fails(RemovePath(path)) ==> Absent(r.host, path))
        && (r.err.Some? && |reverted| < |copied| ==> SnapshotError(r.err.value, name, vol, Label(copied[|reverted|])))
        && (r.err.Some? ==> RevertLeaves(h, r.host, name, vol, Labels(copied), copied != [] && reverted == [], fails))
      ensures var size := QuotaSize(Get(vol.config, "size"), PoolVolumeSize());
        var path, src := MountPath(vol), MountPath(srcVol);
        && (r.err.None? ==>
              && reverted == [] && path in r.host.fs
              && QuotaApplied(h, r.host, path, volID, size, parseByteSize))
        && (r.err.None? && SourceApart(name, vol, srcVol) ==> src in h.fs && r.host.fs[path] == h.fs[src])
        && (r.err == Some(Failed(LocalCopy(src, path))) && |reverted| == |copied| && path in h.quotaCapable ==>
              && parseByteSize(size).Some?
              && r.host.limits == h.limits[ProjectID(volID) := parseByteSize(size).value as int])
      ensures var path := MountPath(vol);
        r.err.None? && CopyApart(name, vol, copied) ==>
          Holds(r.host, SnapshotPathList(name, vol, Labels(copied)),
                StagedList(made.host, made.host.fs[path], copied, path, fails))
    {
      var path := MountPath(vol);
      var filled, registered := CopyFill(made.host, vol, srcVol, copied, volID, fails);
      SameOutsideTrans(h, made.host, filled.host, path, SnapshotDirOf(name, vol));
      if filled.err.Some? {
        var back := RevertFill(h, filled.host, vol, Labels(copied), registered, copied != [] && registered == [], fails);
        return Outcome(back, filled.err), registered;
      }
      assert registered == Labels(copied);
      return filled, [];
    }

    /** CreateVolumeFromCopy: copies `srcVol` into `vol`, with the source's
        snapshots when asked to and the source is not itself a snapshot.
        `listed` is the source's snapshot list as the volume layer returns it
        (None: the lookup failed). */
    method CreateVolumeFromCopy(h: Host, vol: Volume, srcVol: Volume, copySnapshots: bool,
                                listed: Option<seq<Volume>>, fails: Step -> bool)
      returns (r: Outcome, reverted: seq<string>)
      ensures copySnapshots && !IsSnapshotName(srcVol.name) && listed.None? ==>
        r == Outcome(h, Some(SourceSnapshotsLookupFailed)) && reverted == []
      ensures !copySnapshots || IsSnapshotName(srcVol.name) ==>
        SameOutside(h, r.host, MountPath(vol), MountPath(vol)) && reverted == []
      ensures SameOutside(h, r.host, MountPath(vol), SnapshotDirOf(name, vol))
      ensures var path, size := MountPath(vol), QuotaSize(Get(vol.config, "size"), PoolVolumeSize());
        r.err.None? ==>
          && getVolID(vol.volType, vol.name).Some? && path in r.host.fs
          && QuotaApplied(h, r.host, path, getVolID(vol.volType, vol.name).value, size, parseByteSize)
      ensures r.err.None? && SourceApart(name, vol, srcVol) ==>
        MountPath(srcVol) in h.fs && r.host.fs[MountPath(vol)] == h.fs[MountPath(srcVol)]
      ensures var path := MountPath(vol);
        r.err.None? && copySnapshots && listed.Some? && !IsSnapshotName(srcVol.name) && CopyApart(name, vol, listed.value) ==>
          Holds(r.host, SnapshotPathList(name, vol, Labels(listed.value)),
                StagedList(WithDir(h, path), WithDir(h, path).fs[path], listed.value, path, fails))
    {
      var srcSnapshots := [];
      if copySnapshots && !IsSnapshotName(srcVol.name) {
        if listed.None? {
          return Outcome(h, Some(SourceSnapshotsLookupFailed)), [];
        }
        srcSnapshots := listed.value;
      }
      r, reverted := CopyVolume(h, vol, srcVol, srcSnapshots, fails);
    }

    /** MigrateVolume: sends each listed snapshot of `vol`, in order, then
        the volume itself; `sent` is the stream of transfers it produced. A
        snapshot volume that cannot be formed (the volume layer's NewSnapshot)
        or a failed send ends the migration. */
    method MigrateVolume(h: Host, vol: Volume, migrationType: MigrationType, snapshots: seq<string>,
                         fails: Step -> bool) returns (sent: seq<Tree>, err: Option<Error>)
      ensures vol.contentType != FS ==> sent == [] && err == Some(ContentTypeUnsupported)
      ensures vol.contentType == FS && migrationType != RsyncMigration ==>
        sent == [] && err == Some(MigrationTypeUnsupported)
      // What was sent: the contents of the transfer paths, in order.
      ensures var ps := TransferPaths(vol, snapshots);
        && |sent| <= |ps|
        && (forall j :: 0 <= j < |sent| ==> Sent(h, ps[j], sent[j]))
        && (err.None? <==> vol.contentType == FS && migrationType == RsyncMigration && |sent| == |ps|)
      // The migration stops at the first step that fails.
      ensures var ps := TransferPaths(vol, snapshots);
        err.Some? && vol.contentType == FS && migrationType == RsyncMigration ==>
          && |sent| < |ps|
          && (|| (&& |sent| < |snapshots| && fails(NewSnapshot(vol.name, snapshots[|sent|]))
                  && err.value == Failed(NewSnapshot(vol.name, snapshots[|sent|])))
              || (err.value == Failed(Send(ps[|sent|])) && (ps[|sent|] !in h.fs || fails(Send(ps[|sent|])))))
    {
      if vol.contentType != FS {
        return [], Some(ContentTypeUnsupported);
      }
      if migrationType != RsyncMigration {
        return [], Some(MigrationTypeUnsupported);
      }
      sent := [];
      var i := 0;
      while i < |snapshots|
        invariant 0 <= i <= |snapshots| && |sent| == i
        invariant forall j :: 0 <= j < i ==> Sent(h, MountPath(SnapshotOf(vol.pool, vol, snapshots[j])), sent[j])
      {
        if fails(NewSnapshot(vol.name, snapshots[i])) {
          return sent, Some(Failed(NewSnapshot(vol.name, snapshots[i])));
        }
        var snapPath := MountPath(SnapshotOf(vol.pool, vol, snapshots[i]));
        if snapPath !in h.fs || fails(Send(snapPath)) {
          return sent, Some(Failed(Send(snapPath)));
        }
        sent := sent + [h.fs[snapPath]];
        i := i + 1;
      }
      var path := MountPath(vol);
      if path !in h.fs || fails(Send(path)) {
        return sent, Some(Failed(Send(path)));
      }
      sent := sent + [h.fs[path]];
      return sent, None;
    }

    /** One round of CreateVolumeFromMigration's snapshot loop: receives the
        next transfer into the volume, then snapshots the volume under the
        next listed name. */
    method ReceiveRound(h: Host, cur: Host, vol: Volume, snapshots: seq<string>, registered: seq<string>,
                        incoming: seq<Tree>, fails: Step -> bool) returns (created: Outcome)
      requires |registered| < |snapshots| && ReceiveProgress(h, cur, vol, snapshots, registered, incoming)
      ensures created.err.None? ==>
        ReceiveProgress(h, created.host, vol, snapshots, registered + [snapshots[|registered|]], incoming)
      ensures SameOutside(h, created.host, MountPath(vol), SnapshotDirOf(name, vol))
      ensures created.host.limits == cur.limits && MountPath(vol) in created.host.fs
      ensures created.err.Some? ==>
        created.err.value == Failed(Receive(|registered|)) || SnapshotError(created.err.value, name, vol, snapshots[|registered|])
      ensures created.err == Some(Failed(Receive(|registered|))) <==> |registered| >= |incoming| || fails(Receive(|registered|))
      ensures created.err.None? ==> |registered| < |incoming| && created.host.fs[MountPath(vol)] == incoming[|registered|]
      ensures MigrationApart(name, vol, snapshots) ==>
        && Holds(created.host, SnapshotPathList(name, vol, registered), incoming)
        && (created.err.None? ==> Holds(created.host, SnapshotPathList(name, vol, registered + [snapshots[|registered|]]), incoming))
      ensures var snap := snapshots[|registered|];
        created.err.Some? && !fails(RemovePath(SnapshotPathOf(name, vol, snap))) ==>
          AddedBelow(h, created.host, name, vol, registered)
      ensures var dir := SnapshotDirOf(name, vol);
        created.err != Some(Failed(Receive(|registered|))) && !fails(MakeParentSnapshotDir(dir)) ==> dir in created.host.fs
    {
      var path, dir := MountPath(vol), SnapshotDirOf(name, vol);
      var snap := snapshots[|registered|];
      assert snapshots[..|registered| + 1] == registered + [snap];
      var received := Recv(cur, path, incoming, |registered|, fails);
      if received.err.Some? {
        return received;
      }
      created := SnapshotVolume(received.host, vol, snap, fails);
      assert AddedBelow(h, cur, name, vol, registered);
      AddedBelowStep(h, cur, created.host, name, vol, registered, snap);
      SameOutsideChain(cur, received.host, created.host, path, dir);
      SameOutsideTrans(h, cur, created.host, path, dir);
      if MigrationApart(name, vol, snapshots) {
        NameFresh(snapshots, registered);
        SnapshotPathListAvoids(name, vol, registered);
        HoldsOnlyAt(cur, received.host, path, SnapshotPathList(name, vol, registered), incoming);
        SnapshotsHeld(name, received.host, created.host, vol, registered, snap, incoming, created.err.None?);
      }
    }

    /** Where CreateVolumeFromMigration's snapshot loop stands after
        registering `registered`: only the volume and its snapshot directory
        changed, below that directory only the registered snapshots are new
        and, with distinct names, each holds its transfer. */
    ghost predicate ReceiveProgress(h: Host, cur: Host, vol: Volume, snapshots: seq<string>, registered: seq<string>,
                                    incoming: seq<Tree>)
    {
      var path := MountPath(vol);
      && vol.contentType == FS
      && |registered| <= |snapshots| && registered == snapshots[..|registered|] && |registered| <= |incoming|
      && AddedBelow(h, cur, name, vol, registered)
      && SameOutside(h, cur, path, SnapshotDirOf(name, vol)) && cur.limits == h.limits && path in cur.fs
      && (MigrationApart(name, vol, snapshots) ==> Holds(cur, SnapshotPathList(name, vol, registered), incoming))
    }

    /** CreateVolumeFromMigration's snapshot loop: for each listed name,
        receives a transfer into the volume and snapshots it. `registered`
        lists the snapshots created, in order; the first failure ends the loop. */
    method ReceiveSnapshots(h: Host, vol: Volume, snapshots: seq<string>, incoming: seq<Tree>, fails: Step -> bool)
      returns (r: Outcome, registered: seq<string>)
      requires vol.contentType == FS && MountPath(vol) in h.fs
      ensures SameOutside(h, r.host, MountPath(vol), SnapshotDirOf(name, vol))
      ensures r.host.limits == h.limits && MountPath(vol) in r.host.fs
      ensures |registered| <= |snapshots| && registered == snapshots[..|registered|]
      ensures r.err.None? <==> |registered| == |snapshots|
      ensures r.err.Some? ==>
        r.err.value == Failed(Receive(|registered|)) || SnapshotError(r.err.value, name, vol, snapshots[|registered|])
      ensures r.err.None? ==> |snapshots| <= |incoming|
      ensures snapshots == [] ==> r.host == h
      ensures MigrationApart(name, vol, snapshots) ==> Holds(r.host, SnapshotPathList(name, vol, registered), incoming)
      // Below the snapshot directory only the created snapshots are new,
      // unless the failing round could not remove its own snapshot.
      ensures (r.err.Some? ==> !fails(RemovePath(SnapshotPathOf(name, vol, snapshots[|registered|])))) ==>
        AddedBelow(h, r.host, name, vol, registered)
      ensures var dir := SnapshotDirOf(name, vol);
        (&& snapshots != [] && registered == [] && r.err.Some? && SnapshotError(r.err.value, name, vol, snapshots[0])
         && !fails(MakeParentSnapshotDir(dir))) ==> dir in r.host.fs
    {
      var path := MountPath(vol);
      r, registered := Done(h), [];
      var i := 0;
      while i < |snapshots|
        invariant |registered| == i && r.err.None? && ReceiveProgress(h, r.host, vol, snapshots, registered, incoming)
        invariant i == 0 ==> r.host == h
      {
        var created := ReceiveRound(h, r.host, vol, snapshots, registered, incoming, fails);
        if created.err.Some? {
          return created, registered;
        }
        registered := registered + [snapshots[i]];
        r := created;
        i := i + 1;
      }
    }

    /** CreateVolumeFromMigration once the volume's directory exists: the
        pre-filler, the snapshot loop, then the quota and the main receive.
        The caller runs the revert when this fails. */
    method ReceiveFill(h: Host, vol: Volume, snapshots: seq<string>, live: bool, preFiller: Option<Filler>,
                       incoming: seq<Tree>, volID: int64, fails: Step -> bool)
      returns (r: Outcome, registered: seq<string>)
      requires vol.contentType == FS && MountPath(vol) in h.fs
      ensures var path, dir := MountPath(vol), SnapshotDirOf(name, vol);
        && SameOutside(h, r.host, path, dir) && LimitsExcept(h, r.host, ProjectID(volID))
        && path in r.host.fs
        && (snapshots == [] ==> SameOutside(h, r.host, path, path))
      ensures |registered| <= |snapshots| && registered == snapshots[..|registered|]
      // The pre-filler runs before anything is received.
      ensures var path := MountPath(vol);
        preFiller.Some? && fails(RunPreFiller(path)) ==> r == Fail(h, RunPreFiller(path)) && registered == []
      ensures var path, n := MountPath(vol), |snapshots|;
        r.err.Some? ==>
          || (r.err.value == Failed(RunPreFiller(path)) && preFiller.Some? && registered == [])
          || (&& |registered| < n
              && (r.err.value == Failed(Receive(|registered|)) || SnapshotError(r.err.value, name, vol, snapshots[|registered|])))
          || (&& |registered| == n
              && (|| QuotaError(r.err.value) || r.err.value == Failed(Receive(n))
                  || (live && r.err.value == Failed(Receive(n + 1)))))
      ensures var path, size := MountPath(vol), QuotaSize(Get(vol.config, "size"), PoolVolumeSize());
        var last := if live then |snapshots| + 1 else |snapshots|;
        r.err.None? ==>
          && |registered| == |snapshots| && QuotaApplied(h, r.host, path, volID, size, parseByteSize)
          && last < |incoming| && r.host.fs[path] == incoming[last]
      ensures MigrationApart(name, vol, snapshots) ==> Holds(r.host, SnapshotPathList(name, vol, registered), incoming)
      ensures (&& vol.pool == name && !IsSnapshotName(vol.name)
               && (|registered| < |snapshots| ==> !fails(RemovePath(SnapshotPathOf(name, vol, snapshots[|registered|])))))
               ==>
        AddedBelow(h, r.host, name, vol, registered)
      ensures var dir := SnapshotDirOf(name, vol);
        (&& snapshots != [] && registered == [] && r.err.Some? && SnapshotError(r.err.value, name, vol, snapshots[0])
         && !fails(MakeParentSnapshotDir(dir))) ==> dir in r.host.fs
    {
      var path := MountPath(vol);
      if preFiller.Some? {
        var pre := Put(h, path, preFiller.value.content, RunPreFiller(path), fails);
        if pre.err.Some? {
          return pre, [];
        }
        r, registered := ReceiveRest(h, pre.host, vol, snapshots, live, incoming, volID, fails);
      } else {
        r, registered := ReceiveRest(h, h, vol, snapshots, live, incoming, volID, fails);
      }
    }

    /** ReceiveFill after the pre-filler ran on `h`, leaving `cur`: the
        snapshot loop, then the quota and the main receive. */
    method ReceiveRest(h: Host, cur: Host, vol: Volume, snapshots: seq<string>, live: bool,
                       incoming: seq<Tree>, volID: int64, fails: Step -> bool)
      returns (r: Outcome, registered: seq<string>)
      requires var path := MountPath(vol);
        && vol.contentType == FS && path in cur.fs && SameOutside(h, cur, path, path)
        && cur.fs.Keys <= h.fs.Keys && cur.project == h.project && cur.limits == h.limits
      ensures var path, dir := MountPath(vol), SnapshotDirOf(name, vol);
        && SameOutside(h, r.host, path, dir) && LimitsExcept(h, r.host, ProjectID(volID))
        && path in r.host.fs
        && (snapshots == [] ==> SameOutside(h, r.host, path, path))
      ensures |registered| <= |snapshots| && registered == snapshots[..|registered|]
      ensures var n := |snapshots|;
        r.err.Some? ==>
          || (&& |registered| < n
              && (r.err.value == Failed(Receive(|registered|)) || SnapshotError(r.err.value, name, vol, snapshots[|registered|])))
          || (&& |registered| == n
              && (|| QuotaError(r.err.value) || r.err.value == Failed(Receive(n))
                  || (live && r.err.value == Failed(Receive(n + 1)))))
      ensures var path, size := MountPath(vol), QuotaSize(Get(vol.config, "size"), PoolVolumeSize());
        var last := if live then |snapshots| + 1 else |snapshots|;
        r.err.None? ==>
          && |registered| == |snapshots| && QuotaApplied(h, r.host, path, volID, size, parseByteSize)
          && last < |incoming| && r.host.fs[path] == incoming[last]
      ensures MigrationApart(name, vol, snapshots) ==> Holds(r.host, SnapshotPathList(name, vol, registered), incoming)
      ensures (&& vol.pool == name && !IsSnapshotName(vol.name)
               && (|registered| < |snapshots| ==> !fails(RemovePath(SnapshotPathOf(name, vol, snapshots[|registered|])))))
               ==>
        AddedBelow(h, r.host, name, vol, registered)
      ensures var dir := SnapshotDirOf(name, vol);
        (&& snapshots != [] && registered == [] && r.err.Some? && SnapshotError(r.err.value, name, vol, snapshots[0])
         && !fails(MakeParentSnapshotDir(dir))) ==> dir in r.host.fs
    {
      var path := MountPath(vol);
      var snapped;
      snapped, registered := ReceiveSnapshots(cur, vol, snapshots, incoming, fails);
      SameOutsideTrans(h, cur, snapped.host, path, SnapshotDirOf(name, vol));
      AddedBelowRebase(h, cur, snapped.host, name, vol, registered);
      if snapped.err.Some? {
        return snapped, registered;
      }
      r := QuotaAndReceive(snapped.host, path, volID, Get(vol.config, "size"), PoolVolumeSize(), parseByteSize,
                           incoming, |snapshots|, live, fails);
      QuotaAppliedRebase(h, snapped.host, r.host, path, volID, QuotaSize(Get(vol.config, "size"), PoolVolumeSize()),
                         parseByteSize);
      SameOutsideTrans(h, snapped.host, r.host, path, SnapshotDirOf(name, vol));
      AddedBelowOutside(h, snapped.host, r.host, name, vol, registered);
      if MigrationApart(name, vol, snapshots) {
        SnapshotPathListAvoids(name, vol, registered);
        HoldsFsOnlyAt(snapped.host, r.host, path, SnapshotPathList(name, vol, registered), incoming);
      }
    }

    /** Whether CreateVolumeFromMigration gets past its checks and makes the
        volume's directory. */
    predicate MigrationStarts(vol: Volume, migrationType: MigrationType, fails: Step -> bool)
    {
      && vol.contentType == FS && migrationType == RsyncMigration
      && getVolID(vol.volType, vol.name).Some? && !fails(MakeMountPath(MountPath(vol)))
    }

    /** CreateVolumeFromMigration: receives the stream `incoming` that the
        sender's MigrateVolume produced into the new volume `vol`: one
        transfer per listed snapshot, each then snapshotted, then the main
        volume, and a final sync when the migration is live. On a failure
        after the volume's directory was made it deletes the snapshots it
        created, listed in `reverted`, and the volume path. */
    method CreateVolumeFromMigration(h: Host, vol: Volume, migrationType: MigrationType, snapshots: seq<string>,
                                     live: bool, preFiller: Option<Filler>, incoming: seq<Tree>, fails: Step -> bool)
      returns (r: Outcome, reverted: seq<string>)
      ensures var id, path := getVolID(vol.volType, vol.name), MountPath(vol);
        && (vol.contentType != FS ==> r == Outcome(h, Some(ContentTypeUnsupported)) && reverted == [])
        && (vol.contentType == FS && migrationType != RsyncMigration ==>
              r == Outcome(h, Some(MigrationTypeUnsupported)) && reverted == [])
        && (vol.contentType == FS && migrationType == RsyncMigration && id.None? ==>
              r == Outcome(h, Some(VolumeIDLookupFailed)) && reverted == [])
        && (vol.contentType == FS && migrationType == RsyncMigration && id.Some? && fails(MakeMountPath(path)) ==>
              r == Fail(h, MakeMountPath(path)) && reverted == [])
        && (id.Some? ==> LimitsExcept(h, r.host, ProjectID(id.value)))
        && (id.None? ==> r.host == h)
      ensures var path, dir := MountPath(vol), SnapshotDirOf(name, vol);
        && SameOutside(h, r.host, path, dir)
        && (snapshots == [] ==> SameOutside(h, r.host, path, path))
      // The revert: the snapshots it deleted, and the volume path.
      ensures var path := MountPath(vol);
        && |reverted| <= |snapshots| && reverted == snapshots[..|reverted|]
        && (!MigrationStarts(vol, migrationType, fails) ==> r.err.Some? && r.host == h && reverted == [])
        && (r.err.Some? ==> SnapshotsGone(r.host, name, vol, reverted, fails))
        && (r.err.Some? && MigrationStarts(vol, migrationType, fails) && !fails(RemovePath(path)) ==> Absent(r.host, path))
      // Which step failed: the pre-filler, a snapshot round, the quota or a main receive.
      ensures var path, n := MountPath(vol), |snapshots|;
        r.err.Some? && MigrationStarts(vol, migrationType, fails) ==>
          || (r.err.value == Failed(RunPreFiller(path)) && preFiller.Some? && reverted == [])
          || (&& |reverted| < n
              && (r.err.value == Failed(Receive(|reverted|)) || SnapshotError(r.err.value, name, vol, snapshots[|reverted|])))
          || (&& |reverted| == n
              && (|| QuotaError(r.err.value) || r.err.value == Failed(Receive(n))
                  || (live && r.err.value == Failed(Receive(n + 1)))))
      ensures var id, size := getVolID(vol.volType, vol.name), QuotaSize(Get(vol.config, "size"), PoolVolumeSize());
        var path, last := MountPath(vol), if live then |snapshots| + 1 else |snapshots|;
        r.err.None? ==>
          && id.Some? && reverted == [] && path in r.host.fs
          && QuotaApplied(h, r.host, path, id.value, size, parseByteSize)
          && last < |incoming| && r.host.fs[path] == incoming[last]
      ensures r.err.None? && MigrationApart(name, vol, snapshots) ==>
        Holds(r.host, SnapshotPathList(name, vol, snapshots), incoming)
      // For a plain volume whose snapshot directory did not exist, a failure
      // whose removals succeed leaves nothing below that directory; when
      // the first snapshot round fails once the directory was made, the
      // revert has no snapshot to delete and the empty directory stays.
      ensures r.err.Some? ==>
        RevertLeaves(h, r.host, name, vol, snapshots,
                     && MigrationStarts(vol, migrationType, fails) && snapshots != [] && reverted == []
                     && SnapshotError(r.err.value, name, vol, snapshots[0]), fails)
    {
      if vol.contentType != FS {
        RevertLeavesUnchanged(h, name, vol, snapshots, false, fails);
        return Outcome(h, Some(ContentTypeUnsupported)), [];
      }
      if migrationType != RsyncMigration {
        RevertLeavesUnchanged(h, name, vol, snapshots, false, fails);
        return Outcome(h, Some(MigrationTypeUnsupported)), [];
      }
      var volID := getVolID(vol.volType, vol.name);
      if volID.None? {
        RevertLeavesUnchanged(h, name, vol, snapshots, false, fails);
        return Outcome(h, Some(VolumeIDLookupFailed)), [];
      }
      var made := MakeDir(h, MakeMountPath(MountPath(vol)), fails);
      if made.err.Some? {
        RevertLeavesUnchanged(h, name, vol, snapshots, false, fails);
        return made, [];
      }
      r, reverted := MigrationMade(h, made, vol, snapshots, live, preFiller, incoming, volID.value, fails);
    }

    /** CreateVolumeFromMigration once its checks passed and the volume's
        directory was made (`made` from `h`): the fill, then the revert when
        the fill fails. */
    method MigrationMade(h: Host, made: Outcome, vol: Volume, snapshots: seq<string>, live: bool,
                         preFiller: Option<Filler>, incoming: seq<Tree>, volID: int64, fails: Step -> bool)
      returns (r: Outcome, reverted: seq<string>)
      requires made == MakeDir(h, MakeMountPath(MountPath(vol)), fails) && made.err.None?
      requires vol.contentType == FS
      ensures var path, dir := MountPath(vol), SnapshotDirOf(name, vol);
        && LimitsExcept(h, r.host, ProjectID(volID))
        && SameOutside(h, r.host, path, dir) && (snapshots == [] ==> SameOutside(h, r.host, path, path))
      ensures var path := MountPath(vol);
        && |reverted| <= |snapshots| && reverted == snapshots[..|reverted|]
        && (r.err.Some? ==> SnapshotsGone(r.host, name, vol, reverted, fails))
        && (r.err.Some? && !fails(RemovePath(path)) ==> Absent(r.host, path))
        && (r.err.Some? ==>
              RevertLeaves(h, r.host, name, vol, snapshots,
                           snapshots != [] && reverted == [] && SnapshotError(r.err.value, name, vol, snapshots[0]), fails))
      ensures var path, n := MountPath(vol), |snapshots|;
        r.err.Some? ==>
          || (r.err.value == Failed(RunPreFiller(path)) && preFiller.Some? && reverted == [])
          || (&& |reverted| < n
              && (r.err.value == Failed(Receive(|reverted|)) || SnapshotError(r.err.value, name, vol, snapshots[|reverted|])))
          || (&& |reverted| == n
              && (|| QuotaError(r.err.value) || r.err.value == Failed(Receive(n))
                  || (live && r.err.value == Failed(Receive(n + 1)))))
      ensures var size := QuotaSize(Get(vol.config, "size"), PoolVolumeSize());
        var path, last := MountPath(vol), if live then |snapshots| + 1 else |snapshots|;
        r.err.None? ==>
          && reverted == [] && path in r.host.fs
          && QuotaApplied(h, r.host, path, volID, size, parseByteSize)
          && last < |incoming| && r.host.fs[path] == incoming[last]
      ensures r.err.None? && MigrationApart(name, vol, snapshots) ==>
        Holds(r.host, SnapshotPathList(name, vol, snapshots), incoming)
    {
      var path := MountPath(vol);
      var filled, registered := ReceiveFill(made.host, vol, snapshots, live, preFiller, incoming, volID, fails);
      SameOutsideTrans(h, made.host, filled.host, path, SnapshotDirOf(name, vol));
      if filled.err.Some? {
        var firstFailed := snapshots != [] && registered == [] && SnapshotError(filled.err.value, name, vol, snapshots[0]);
        var back := RevertFill(h, filled.host, vol, snapshots, registered, firstFailed, fails);
        return Outcome(back, filled.err), registered;
      }
      assert registered == snapshots;
      return filled, [];
    }

    /** BackupVolume: copies a container volume, and its snapshots when
        asked to, below `target`: each snapshot to "snapshots/<label>", then
        the volume to "container". `listed` is the volume's snapshot list as
        the volume layer returns it (None: the lookup failed). */
    method BackupVolume(h: Host, vol: Volume, target: Path, withSnapshots: bool, listed: Option<seq<Volume>>,
                        fails: Step -> bool) returns (r: Outcome)
      ensures vol.volType != Container ==> r == Outcome(h, Some(NotImplemented))
      ensures vol.volType == Container && withSnapshots && listed.None? ==>
        r == Outcome(h, Some(SourceSnapshotsLookupFailed))
      ensures var dir, main := BackupSnapshotsDir(target), BackupVolumePath(target);
        && SameOutside(h, r.host, dir, main) && r.host.limits == h.limits && r.host.project == h.project
        // The snapshots directory is made only for a non-empty snapshot list.
        && (!(withSnapshots && listed.Some? && |listed.value| > 0) ==> SameOutside(h, r.host, main, main))
        && (vol.volType == Container && withSnapshots && listed.Some? && |listed.value| > 0 && !fails(MakeDirAll(dir)) ==>
              dir in r.host.fs)
      ensures var dir, main := BackupSnapshotsDir(target), BackupVolumePath(target);
        r.err.Some? && vol.volType == Container && !(withSnapshots && listed.None?) ==>
          || (withSnapshots && |listed.value| > 0 && r.err.value == Failed(MakeDirAll(dir)))
          || (withSnapshots && exists j :: 0 <= j < |listed.value| && r.err.value == Failed(BackupCopy(listed.value[j], target)))
          || r.err.value == Failed(LocalCopy(MountPath(vol), main))
      // What a backup holds.
      ensures r.err.None? ==> vol.volType == Container && (withSnapshots ==> listed.Some?)
      ensures r.err.None? && !Under(target, MountPath(vol)) ==>
        Mirrors(h, r.host, MountPath(vol), BackupVolumePath(target))
      ensures r.err.None? && withSnapshots && listed.Some? && BackupApart(target, vol, listed.value) ==>
        forall j :: 0 <= j < |listed.value| ==>
          Mirrors(h, r.host, MountPath(listed.value[j]), BackupSnapshotPath(target, Label(listed.value[j])))
    {
      if vol.volType != Container {
        return Outcome(h, Some(NotImplemented));
      }
      var dir, main := BackupSnapshotsDir(target), BackupVolumePath(target);
      BackupPathsApart(target, "", "");
      var cur := Done(h);
      if withSnapshots {
        if listed.None? {
          return Outcome(h, Some(SourceSnapshotsLookupFailed));
        }
        cur := BackupSnapshotsOf(h, target, vol, listed.value, fails);
        if cur.err.Some? {
          return cur;
        }
      }
      if Under(dir, MountPath(vol)) {
        assert dir[..|target|] == target;
        UnderTrans(target, dir, MountPath(vol));
      }
      r := Copy(cur.host, MountPath(vol), main, fails);
      SameOutsideChain(h, cur.host, r.host, dir, main);
      if r.err.None? && withSnapshots && BackupApart(target, vol, listed.value) {
        BackupEntriesKept(h, cur.host, r.host, target, listed.value);
      }
    }

    /** RestoreBackupVolume: makes the volume's directory and extracts the
        backup into it and, when the backup has snapshots, into the volume's
        snapshot directory. On success it returns the revert hook, as the
        list of paths the hook removes; on a failure after the volume's
        directory was made it runs that hook itself and returns none. */
    method RestoreBackupVolume(h: Host, vol: Volume, snapshots: seq<string>, tarball: BackupTarball,
                               fails: Step -> bool) returns (r: Outcome, revertHook: Option<seq<Path>>)
      ensures var path := MountPath(vol);
        fails(MakeMountPath(path)) ==> r == Fail(h, MakeMountPath(path)) && revertHook.None?
      ensures revertHook.Some? <==> r.err.None?
      ensures var path, snapDir := MountPath(vol), SnapshotDir(name, vol.volType, vol.name);
        && SameOutside(h, r.host, path, snapDir) && r.host.limits == h.limits
        && (snapshots == [] ==> SameOutside(h, r.host, path, path))
      // The revert list holds the volume path, and the snapshot directory
      // only when there are snapshots.
      ensures var path, snapDir := MountPath(vol), SnapshotDir(name, vol.volType, vol.name);
        r.err.None? ==> revertHook.value == [path] + (if snapshots != [] then [snapDir] else [])
      ensures var path, snapDir := MountPath(vol), SnapshotDir(name, vol.volType, vol.name);
        r.err.None? <==>
          && !fails(MakeMountPath(path)) && !fails(DetectCompression) && !fails(TarExtract(path))
          && (snapshots != [] ==> !fails(MakeDirAll(snapDir)) && !fails(TarExtract(snapDir)))
      ensures var path, snapDir := MountPath(vol), SnapshotDir(name, vol.volType, vol.name);
        r.err.None? ==>
          && path in r.host.fs && r.host.fs[path] == tarball.container && r.host.project == h.project
          && (snapshots != [] ==>
                && snapDir in r.host.fs && tarball.snapshots.Keys <= Entries(r.host, snapDir)
                && forall l :: l in tarball.snapshots ==> r.host.fs[snapDir + [l]] == tarball.snapshots[l])
      // A failure after the volume's directory was made removes it, and a
      // failed snapshot extraction removes the snapshot directory, whether or
      // not this call made it.
      ensures var path, snapDir := MountPath(vol), SnapshotDir(name, vol.volType, vol.name);
        && (r.err.Some? && !fails(MakeMountPath(path)) && !fails(RemovePath(path)) ==> Absent(r.host, path))
        && (r.err == Some(Failed(TarExtract(snapDir))) && snapshots != [] && !fails(RemovePath(snapDir)) ==>
              Absent(r.host, snapDir))
        && (r.err.Some? && r.err != Some(Failed(TarExtract(snapDir))) ==> SameOutside(h, r.host, path, path))
    {
      var path, snapDir := MountPath(vol), SnapshotDir(name, vol.volType, vol.name);
      MountPathNotAboveSnapshotDir(vol, name, vol.volType, vol.name);
      SnapshotDirNotAboveMountPath(vol, name);
      var made := MakeDir(h, MakeMountPath(path), fails);
      if made.err.Some? {
        return made, None;
      }
      var extracted, revertPaths := ExtractBackup(made.host, path, snapDir, snapshots != [], tarball, fails);
      assert SameOutside(h, made.host, path, snapDir) by {
        assert Under(path, path);
      }
      SameOutsideTrans(h, made.host, extracted.host, path, snapDir);
      if extracted.err.Some? {
        var back := RevertPaths(extracted.host, revertPaths, fails);
        assert revertPaths[0] == path;
        assert revertPaths == [path, snapDir] ==> revertPaths[1] == snapDir;
        SameOutsideAllPaths(extracted.host, back, path, snapDir);
        SameOutsideTrans(h, extracted.host, back, path, snapDir);
        if revertPaths == [path] {
          assert SameOutside(h, made.host, path, path) by {
            assert Under(path, path);
          }
          SameOutsideTrans(h, made.host, extracted.host, path, path);
          SameOutsideTrans(h, extracted.host, back, path, path);
        }
        return Outcome(back, extracted.err), None;
      }
      return extracted, Some(revertPaths);
    }

    /** The snapshots a backup restored count as the volume's snapshots:
        RestoreBackupVolume with a non-empty snapshot list and tarball, then
        DeleteVolume, which refuses the volume and changes nothing. */
    method RestoreThenDelete(h: Host, vol: Volume, snapshots: seq<string>, tarball: BackupTarball,
                             fails: Step -> bool) returns (restored: Outcome, deleted: Outcome)
      ensures var snapDir := SnapshotDir(name, vol.volType, vol.name);
        (&& restored.err.None? && snapshots != [] && tarball.snapshots != map[]
         && !fails(ListSnapshots(snapDir))) ==>
          deleted == Outcome(restored.host, Some(HasSnapshots))
    {
      var hook;
      restored, hook := RestoreBackupVolume(h, vol, snapshots, tarball, fails);
      deleted := DeleteVolume(restored.host, vol, fails);
      var snapDir := SnapshotDir(name, vol.volType, vol.name);
      if restored.err.None? && snapshots != [] && tarball.snapshots != map[] {
        var l :| l in tarball.snapshots;
        assert l in Entries(restored.host, snapDir);
      }
    }

    /** The post hook RestoreBackupVolume returns, run once the restored
        volume's configuration is known: setupInitialQuota on the volume,
        keeping only its error. */
    method RestorePostHook(h: Host, vol: Volume, fails: Step -> bool) returns (r: Outcome)
      ensures var path := MountPath(vol);
        && r.host.fs == h.fs && SameOutside(h, r.host, path, path)
        && (r.err.Some? ==> QuotaError(r.err.value))
        && (getVolID(vol.volType, vol.name).None? ==> r == Outcome(h, Some(VolumeIDLookupFailed)))
      ensures var path, id := MountPath(vol), getVolID(vol.volType, vol.name);
        var size := QuotaSize(InitialSize(Get(vol.config, "size"), PoolVolumeSize()), PoolVolumeSize());
        r.err.None? && QuotaSupported(h, path) ==>
          && id.Some? && id.value != 0 && parseByteSize(size).Some?
          && r.host.project == h.project[path := ProjectID(id.value)]
          && r.host.limits == h.limits[ProjectID(id.value) := parseByteSize(size).value as int]
    {
      r := SetupInitialQuota(h, MountPath(vol), getVolID(vol.volType, vol.name), Get(vol.config, "size"),
                             PoolVolumeSize(), parseByteSize, fails).outcome;
    }

    /** One round of the revert loop: deletes snapshot `snap` of `vol`. */
    method DropSnapshot(h: Host, vol: Volume, gone: seq<string>, snap: string, fails: Step -> bool) returns (r: Host)
      requires SnapshotsGone(h, name, vol, gone, fails)
      ensures SameOutside(h, r, MountPath(vol), SnapshotDirOf(name, vol)) && r.limits == h.limits
      ensures r.fs.Keys <= h.fs.Keys && r.project.Keys <= h.project.Keys
      ensures SnapshotsGone(r, name, vol, gone + [snap], fails)
    {
      var snapVol := SnapshotOf(name, vol, snap);
      SnapshotParents(name, vol, snapVol, snap);
      SnapshotPathsOf(name, vol, snap, snap);
      var deleted := DeleteVolumeSnapshot(h, snapVol, fails);
      SameOutsideWithin(h, deleted.host, SnapshotDirOf(name, vol), SnapshotPathOf(name, vol, snap));
      SnapshotsGoneStep(h, deleted.host, name, vol, gone, snap, fails);
      r := deleted.host;
    }

    /** The revert's loop: deletes the registered snapshots, in order,
        ignoring their errors. */
    method DropSnapshots(h: Host, vol: Volume, registered: seq<string>, fails: Step -> bool) returns (r: Host)
      ensures SameOutside(h, r, MountPath(vol), SnapshotDirOf(name, vol)) && r.limits == h.limits
      ensures r.fs.Keys <= h.fs.Keys && r.project.Keys <= h.project.Keys
      ensures SnapshotsGone(r, name, vol, registered, fails)
      ensures registered == [] ==> r == h
    {
      r := h;
      var i := 0;
      assert DropLoop(h, r, name, vol, registered[..0], fails);
      while i < |registered|
        invariant 0 <= i <= |registered|
        invariant DropLoop(h, r, name, vol, registered[..i], fails)
        invariant i == 0 ==> r == h
      {
        var dropped := DropSnapshot(r, vol, registered[..i], registered[i], fails);
        DropLoopStep(h, r, dropped, name, vol, registered[..i], registered[i], fails);
        assert registered[..i + 1] == registered[..i] + [registered[i]];
        r := dropped;
        i := i + 1;
      }
      assert registered[..i] == registered;
    }

    /** The revert of copyVolume and CreateVolumeFromMigration after a failed
        fill, seen from the host `h` before the volume's directory was made:
        only the volume and its snapshot directory change, the registered
        snapshots and the volume path are gone, and the snapshot directory
        is left as RevertLeaves says. */
    method RevertFill(h: Host, filled: Host, vol: Volume, labels: seq<string>, registered: seq<string>,
                      firstFailed: bool, fails: Step -> bool) returns (back: Host)
      requires SameOutside(h, filled, MountPath(vol), SnapshotDirOf(name, vol))
      requires |registered| <= |labels| && forall j :: 0 <= j < |registered| ==> registered[j] == labels[j]
      requires (&& vol.pool == name && !IsSnapshotName(vol.name)
                && (|registered| < |labels| ==> !fails(RemovePath(SnapshotPathOf(name, vol, labels[|registered|]))))) ==>
        AddedBelow(WithDir(h, MountPath(vol)), filled, name, vol, registered)
      requires var dir := SnapshotDirOf(name, vol);
        firstFailed ==> registered == [] && (!fails(MakeParentSnapshotDir(dir)) ==> dir in filled.fs)
      ensures var path, dir := MountPath(vol), SnapshotDirOf(name, vol);
        && SameOutside(h, back, path, dir) && back.limits == filled.limits
        && (registered == [] && SameOutside(h, filled, path, path) ==> SameOutside(h, back, path, path))
        && (!fails(RemovePath(path)) ==> Absent(back, path))
        && SnapshotsGone(back, name, vol, registered, fails)
        && RevertLeaves(h, back, name, vol, labels, firstFailed, fails)
    {
      var path := MountPath(vol);
      back := RevertCopy(filled, vol, registered, fails);
      SameOutsideTrans(h, filled, back, path, SnapshotDirOf(name, vol));
      EmptiesAfterRevert(h, WithDir(h, path), filled, back, name, vol, labels, registered, firstFailed, fails);
    }

    /** The revert of copyVolume and CreateVolumeFromMigration: deletes the
        registered snapshots, then the volume path. Their errors are ignored. */
    method RevertCopy(h: Host, vol: Volume, registered: seq<string>, fails: Step -> bool) returns (r: Host)
      ensures SameOutside(h, r, MountPath(vol), SnapshotDirOf(name, vol)) && r.limits == h.limits
      ensures r.fs.Keys <= h.fs.Keys && r.project.Keys <= h.project.Keys
      ensures !fails(RemovePath(MountPath(vol))) ==> Absent(r, MountPath(vol))
      ensures SnapshotsGone(r, name, vol, registered, fails)
      ensures registered == [] ==> r == RemoveAll(h, MountPath(vol), fails).host
    {
      var path := MountPath(vol);
      var dropped := DropSnapshots(h, vol, registered, fails);
      var removed := RemoveAll(dropped, path, fails);
      SameOutsideGrow(h, dropped, removed.host, path, SnapshotDirOf(name, vol));
      SnapshotsGoneShrink(dropped, removed.host, name, vol, registered, fails);
      r := removed.host;
    }
  }

  /** A migration from `source` to `target`: the sender's MigrateVolume
      produces the stream that the receiver's CreateVolumeFromMigration
      consumes, for a migration that is not live. The receiver ends up with
      the sender's volume and, snapshot by snapshot, the sender's snapshots;
      a stream the sender cut short is refused. */
  method Migrate(source: Dir, target: Dir, hs: Host, vol: Volume, ht: Host, tvol: Volume,
                 snapshots: seq<string>, migrationType: MigrationType, preFiller: Option<Filler>,
                 sendFails: Step -> bool, recvFails: Step -> bool)
    returns (sendErr: Option<Error>, r: Outcome, reverted: seq<string>)
    ensures sendErr.Some? ==> r.err.Some?
    ensures sendErr.None? && r.err.None? ==>
      && MountPath(vol) in hs.fs && MountPath(tvol) in r.host.fs
      && r.host.fs[MountPath(tvol)] == hs.fs[MountPath(vol)]
    ensures sendErr.None? && r.err.None? && MigrationApart(target.name, tvol, snapshots) ==>
      forall j :: 0 <= j < |snapshots| ==>
        && MountPath(SnapshotOf(vol.pool, vol, snapshots[j])) in hs.fs
        && At(r.host, MountPath(SnapshotOf(target.name, tvol, snapshots[j]))).0
           == Some(hs.fs[MountPath(SnapshotOf(vol.pool, vol, snapshots[j]))])
  {
    var sent;
    sent, sendErr := source.MigrateVolume(hs, vol, migrationType, snapshots, sendFails);
    r, reverted := target.CreateVolumeFromMigration(ht, tvol, migrationType, snapshots, false, preFiller, sent, recvFails);
    ghost var ps := TransferPaths(vol, snapshots);
    if sendErr.Some? {
      assert |sent| <= |snapshots|;
      return;
    }
    if r.err.Some? {
      return;
    }
    assert Sent(hs, ps[|snapshots|], sent[|snapshots|]);
    if MigrationApart(target.name, tvol, snapshots) {
      forall j | 0 <= j < |snapshots|
        ensures && MountPath(SnapshotOf(vol.pool, vol, snapshots[j])) in hs.fs
                && At(r.host, MountPath(SnapshotOf(target.name, tvol, snapshots[j]))).0
                   == Some(hs.fs[MountPath(SnapshotOf(vol.pool, vol, snapshots[j]))])
      {
        assert Sent(hs, ps[j], sent[j]);
        assert SnapshotPathList(target.name, tvol, snapshots)[j] == MountPath(SnapshotOf(target.name, tvol, snapshots[j]));
      }
    }
  }
}
