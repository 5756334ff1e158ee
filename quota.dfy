/** Project quotas of the directory driver: the project id of a volume, the
    rules that pick the size to apply, and the guarded updates of the quota
    state (initQuota, setQuota, deleteQuota). */
module Quota {
  import opened Types
  import opened HostFs

  const ProjectIDOffset: int := 10000
  const Two32: int := 0x1_0000_0000
  const Two63: int := 0x8000_0000_0000_0000
  const Two64: int := 0x1_0000_0000_0000_0000

  /** Go's int64 addition, which wraps around. */
  function AddInt64(a: int64, b: int64): (r: int64)
    ensures (a as int + b as int - r as int) % Two64 == 0
  {
    var s := a as int + b as int;
    var k := (s + Two63) / Two64;
    assert (s + Two63) % Two64 == s + Two63 - k * Two64;
    ((s + Two63) % Two64 - Two63) as int64
  }

  /** Go's conversion uint32(x) of an int64: the low 32 bits. */
  function Uint32Of(x: int64): (r: uint32)
    ensures (x as int - r as int) % Two32 == 0
  {
    (x as int % Two32) as uint32
  }

  lemma {:induction false} ModOfMultiple(a: int, b: int, n: int, m: int)
    requires n > 0 && m > 0
    requires (a - b) % (n * m) == 0
    ensures (a - b) % n == 0
  {
    var k := (a - b) / (n * m);
    assert a - b == k * (n * m);
    assert a - b == (k * m) * n;
  }

  /** A value that differs from `a` by a multiple of 2^64 and then from `id`
      by a multiple of 2^32 leaves `id` as the remainder of `a` mod 2^32. */
  lemma {:induction false} WrapThenTruncate(a: int, s: int, id: int)
    requires (a - s) % Two64 == 0 && (s - id) % Two32 == 0 && 0 <= id < Two32
    ensures a % Two32 == id
  {
    ModOfMultiple(a, s, Two32, Two32);
    var k1, k2 := (a - s) / Two32, (s - id) / Two32;
    assert a == id + (k1 + k2) * Two32;
  }

  /** quotaProjectID: uint32(volID + 10000). Total; equal to
      (volID + 10000) mod 2^32 even where the int64 addition wraps. */
  function ProjectID(volID: int64): (id: uint32)
    ensures id as int == (volID as int + ProjectIDOffset) % Two32
  {
    var s := AddInt64(volID, ProjectIDOffset as int64);
    var id := Uint32Of(s);
    WrapThenTruncate(volID as int + ProjectIDOffset, s as int, id as int);
    id
  }

  /** The volume ids the metadata store hands out map to distinct, nonzero
      project ids as long as the offset does not wrap. */
  lemma ProjectIDInRange(v1: int64, v2: int64)
    requires 0 < v1 as int < Two32 - ProjectIDOffset
    requires 0 < v2 as int < Two32 - ProjectIDOffset
    ensures ProjectID(v1) as int == v1 as int + ProjectIDOffset
    ensures ProjectID(v1) != 0
    ensures v1 != v2 ==> ProjectID(v1) != ProjectID(v2)
  {
  }

  /** The 32-bit truncation is visible: every volume id 10000 short of a
      multiple of 2^32 gets project id 0, the id that deleteQuota uses for
      "no project"; two such ids are shown. */
  lemma ProjectIDWrapsToZero()
    ensures forall v: int64 :: ProjectID(v) == 0 <==> (v as int + ProjectIDOffset) % Two32 == 0
    ensures ProjectID(0x1_0000_0000 - 10000) == 0
    ensures ProjectID(-10000) == 0
  {
  }

  /** setQuota's size: an empty or "0" size falls back to the pool's volume.size. */
  function QuotaSize(size: string, poolSize: string): string
  {
    if size == "" || size == "0" then poolSize else size
  }

  /** setupInitialQuota's size and the block volume size before the default:
      a non-empty volume size wins over the pool's volume.size. */
  function InitialSize(volSize: string, poolSize: string): string
  {
    if volSize != "" then volSize else poolSize
  }

  const DefaultBlockSize: string := "10GB"

  /** The size a new block volume's disk image is given. */
  function BlockSize(volSize: string, poolSize: string): string
  {
    var s := InitialSize(volSize, poolSize);
    if s == "" then DefaultBlockSize else s
  }

  /** The three size rules, stated case by case. */
  lemma SizeRules(volSize: string, poolSize: string)
    ensures volSize != "" && volSize != "0" ==> QuotaSize(volSize, poolSize) == volSize
    ensures volSize == "" || volSize == "0" ==> QuotaSize(volSize, poolSize) == poolSize
    ensures volSize != "" ==> InitialSize(volSize, poolSize) == volSize && BlockSize(volSize, poolSize) == volSize
    ensures volSize == "" && poolSize != "" ==> BlockSize(volSize, poolSize) == poolSize
    ensures volSize == "" && poolSize == "" ==> BlockSize(volSize, poolSize) == DefaultBlockSize
    ensures BlockSize(volSize, poolSize) != ""
  {
  }

  /** What setupInitialQuota finally applies: its own rule, then setQuota's. A
      volume size of "0" defers to the pool even though it is not empty. */
  lemma InitialQuotaSize(volSize: string, poolSize: string)
    ensures QuotaSize(InitialSize(volSize, poolSize), poolSize)
         == (if volSize == "" || volSize == "0" then poolSize else volSize)
  {
  }

  /** quota.Supported: the path exists and its filesystem supports project
      quotas. A missing path makes Supported fail, and the driver treats
      that failure like "not supported". */
  predicate QuotaSupported(h: Host, path: Path)
  {
    path in h.quotaCapable && path in h.fs
  }

  /** initQuota: attaches the volume's project id to `path`. */
  function InitQuota(h: Host, path: Path, volID: int64, fails: Step -> bool): (r: Outcome)
    ensures r.err == Some(MissingVolumeID) <==> volID == 0
    ensures volID != 0 && !QuotaSupported(h, path) ==> r == Outcome(h, None)
    ensures r.err.None? && QuotaSupported(h, path) ==>
              r.host == h.(project := h.project[path := ProjectID(volID)])
    ensures volID != 0 && QuotaSupported(h, path) ==>
              (r.err.None? <==> !fails(SetProject(path, ProjectID(volID))))
    ensures r.err.Some? ==> r.host == h
    ensures r.host.fs == h.fs && r.host.limits == h.limits && SameOutside(h, r.host, path, path)
  {
    if volID == 0 then Outcome(h, Some(MissingVolumeID))
    else if !QuotaSupported(h, path) then Outcome(h, None)
    else SetProjectOf(h, path, ProjectID(volID), fails)
  }

  /** setQuota: resolves the size, parses it and sets the project's byte limit. */
  function SetQuota(h: Host, path: Path, volID: int64, size: string, poolSize: string,
                    parse: string -> Option<int64>, fails: Step -> bool): (r: Outcome)
    ensures r.err == Some(MissingVolumeID) <==> volID == 0
    ensures volID != 0 && parse(QuotaSize(size, poolSize)).None? ==>
              r == Outcome(h, Some(SizeParseFailed(QuotaSize(size, poolSize))))
    ensures volID != 0 && parse(QuotaSize(size, poolSize)).Some? && !QuotaSupported(h, path) ==>
              r == Outcome(h, None)
    ensures r.err.None? && QuotaSupported(h, path) ==>
              parse(QuotaSize(size, poolSize)).Some? &&
              r.host == h.(limits := h.limits[ProjectID(volID) := parse(QuotaSize(size, poolSize)).value as int])
    ensures volID != 0 && parse(QuotaSize(size, poolSize)).Some? && QuotaSupported(h, path) ==>
              (r.err.None? <==>
                 !fails(SetProjectQuota(path, ProjectID(volID), parse(QuotaSize(size, poolSize)).value as int)))
    ensures r.err.Some? ==> r.host == h
    ensures r.host.fs == h.fs && r.host.project == h.project && SameOutside(h, r.host, path, path)
  {
    if volID == 0 then Outcome(h, Some(MissingVolumeID))
    else
      var s := QuotaSize(size, poolSize);
      match parse(s)
      case None => Outcome(h, Some(SizeParseFailed(s)))
      case Some(bytes) =>
        if !QuotaSupported(h, path) then Outcome(h, None)
        else SetProjectLimit(h, path, ProjectID(volID), bytes as int, fails)
  }

  /** deleteQuota: detaches `path` from its project and zeroes the project's limit. */
  function DeleteQuota(h: Host, path: Path, volID: int64, fails: Step -> bool): (r: Outcome)
    ensures r.err == Some(MissingVolumeID) <==> volID == 0
    ensures volID != 0 && !QuotaSupported(h, path) ==> r == Outcome(h, None)
    ensures r.err.None? && QuotaSupported(h, path) ==>
              r.host == h.(project := h.project[path := 0], limits := h.limits[ProjectID(volID) := 0])
    ensures volID != 0 && QuotaSupported(h, path) ==>
              (r.err.None? <==> !fails(SetProject(path, 0)) && !fails(SetProjectQuota(path, ProjectID(volID), 0)))
    ensures r.err.Some? ==> r.host == h || r.host == h.(project := h.project[path := 0])
    ensures r.host.fs == h.fs && SameOutside(h, r.host, path, path)
    ensures LimitsExcept(h, r.host, ProjectID(volID))
  {
    if volID == 0 then Outcome(h, Some(MissingVolumeID))
    else if !QuotaSupported(h, path) then Outcome(h, None)
    else
      var detached := SetProjectOf(h, path, 0, fails);
      if detached.err.Some? then detached
      else SetProjectLimit(detached.host, path, ProjectID(volID), 0, fails)
  }

  /** The cleanup steps of a volume path and its quota do not fail. */
  ghost predicate CleanupSucceeds(fails: Step -> bool, path: Path, volID: int64)
  {
    && !fails(RemovePath(path))
    && !fails(SetProject(path, 0))
    && !fails(SetProjectQuota(path, ProjectID(volID), 0))
  }

  /** setupInitialQuota's results: its outcome and, on success, the volume id
      its revert function removes the quota for. */
  datatype QuotaSetup = QuotaSetup(outcome: Outcome, revert: Option<int64>)

  /** The errors setupInitialQuota can return. */
  predicate QuotaError(e: Error)
  {
    || e == VolumeIDLookupFailed || e == MissingVolumeID || e.SizeParseFailed?
    || (e.Failed? && (e.step.SetProject? || e.step.SetProjectQuota?))
  }

  /** The pool's state after setupInitialQuota rolled its own initQuota back. */
  function QuotaRolledBack(h: Host, path: Path, volID: int64): Host
  {
    h.(project := h.project[path := 0], limits := h.limits[ProjectID(volID) := 0])
  }

  /** setupInitialQuota: looks the volume id up, attaches the project to
      `path` and sets the initial limit, deleting the quota again if setting
      the limit fails. `lookup` is the result of the volume id lookup. */
  function SetupInitialQuota(h: Host, path: Path, lookup: Option<int64>, volSize: string, poolSize: string,
                             parse: string -> Option<int64>, fails: Step -> bool): (r: QuotaSetup)
    ensures r.revert.Some? <==> r.outcome.err.None?
    ensures r.outcome.err.Some? ==> QuotaError(r.outcome.err.value)
    ensures lookup.None? ==> r.outcome == Outcome(h, Some(VolumeIDLookupFailed))
    ensures lookup == Some(0) ==> r.outcome == Outcome(h, Some(MissingVolumeID))
    ensures r.revert.Some? ==> lookup == r.revert && r.revert.value != 0
    ensures r.outcome.host.fs == h.fs && SameOutside(h, r.outcome.host, path, path)
    ensures lookup.Some? ==>
      var id := lookup.value;
      var size := QuotaSize(InitialSize(volSize, poolSize), poolSize);
      && LimitsExcept(h, r.outcome.host, ProjectID(id))
      && (r.outcome.err.None? && QuotaSupported(h, path) ==>
            && parse(size).Some?
            && r.outcome.host.project == h.project[path := ProjectID(id)]
            && r.outcome.host.limits == h.limits[ProjectID(id) := parse(size).value as int])
      && (!QuotaSupported(h, path) ==> r.outcome.host == h)
      && (r.outcome.err.Some? && CleanupSucceeds(fails, path, id) ==>
            r.outcome.host == h || r.outcome.host == QuotaRolledBack(h, path, id))
  {
    match lookup
    case None => QuotaSetup(Outcome(h, Some(VolumeIDLookupFailed)), None)
    case Some(volID) =>
      var init := InitQuota(h, path, volID, fails);
      if init.err.Some? then QuotaSetup(init, None)
      else
        var limited := SetQuota(init.host, path, volID, InitialSize(volSize, poolSize), poolSize, parse, fails);
        if limited.err.Some? then
          var reverted := DeleteQuota(limited.host, path, volID, fails);
          QuotaSetup(Outcome(reverted.host, limited.err), None)
        else QuotaSetup(limited, Some(volID))
  }
}
