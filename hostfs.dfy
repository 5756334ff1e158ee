/** The abstract host filesystem and quota mechanism the driver calls into.
    Each primitive either fails (as the oracle `fails` decides, or because a
    path it needs is missing) and leaves the host as it was, or performs its
    one effect. */
module HostFs {
  import opened Types
  import opened Layout

  /** The entries of `m` that do not lie below `root`. */
  function Prune<V>(m: map<Path, V>, root: Path): (r: map<Path, V>)
    ensures forall q :: q in r <==> q in m && !Under(root, q)
    ensures forall q :: q in r ==> r[q] == m[q]
  {
    map q | q in m && !Under(root, q) :: m[q]
  }

  /** What the host holds at path `q`: its contents and its project, if any. */
  function At(h: Host, q: Path): (Option<Tree>, Option<uint32>)
  {
    (if q in h.fs then Some(h.fs[q]) else None, if q in h.project then Some(h.project[q]) else None)
  }

  /** h1 and h2 agree on every path outside the subtrees `a` and `b`. */
  ghost predicate SameOutside(h1: Host, h2: Host, a: Path, b: Path)
  {
    && h1.quotaCapable == h2.quotaCapable
    && (forall q :: !Under(a, q) && !Under(b, q) ==> At(h1, q) == At(h2, q))
  }

  /** Nothing exists at or below `root`, nor carries a quota project there. */
  ghost predicate Absent(h: Host, root: Path)
  {
    && (forall q :: q in h.fs ==> !Under(root, q))
    && (forall q :: q in h.project ==> !Under(root, q))
  }

  /** h1 and h2 have the same byte limits for every project id but `id`. */
  ghost predicate LimitsExcept(h1: Host, h2: Host, id: uint32)
  {
    forall k :: k != id ==>
      (k in h1.limits <==> k in h2.limits) && (k in h1.limits ==> h1.limits[k] == h2.limits[k])
  }

  lemma SameOutsideTrans(h1: Host, h2: Host, h3: Host, a: Path, b: Path)
    requires SameOutside(h1, h2, a, b) && SameOutside(h2, h3, a, b)
    ensures SameOutside(h1, h3, a, b)
  {
  }

  /** Changes below `a` followed by changes below `b`. */
  lemma SameOutsideChain(h1: Host, h2: Host, h3: Host, a: Path, b: Path)
    requires SameOutside(h1, h2, a, a) && SameOutside(h2, h3, b, b)
    ensures SameOutside(h1, h3, a, b)
  {
  }

  /** Changes within `a` and `b`, then changes within `a` alone. */
  lemma SameOutsideGrow(h1: Host, h2: Host, h3: Host, a: Path, b: Path)
    requires SameOutside(h1, h2, a, b) && SameOutside(h2, h3, a, a)
    ensures SameOutside(h1, h3, a, b)
  {
  }

  lemma LimitsExceptTrans(h1: Host, h2: Host, h3: Host, id: uint32)
    requires LimitsExcept(h1, h2, id) && LimitsExcept(h2, h3, id)
    ensures LimitsExcept(h1, h3, id)
  {
  }

  lemma LimitsExceptUpdate(h1: Host, h2: Host, id: uint32, v: int)
    requires LimitsExcept(h1, h2, id)
    ensures h1.limits[id := v] == h2.limits[id := v]
  {
    var m1, m2 := h1.limits[id := v], h2.limits[id := v];
    assert m1.Keys == m2.Keys;
    forall k | k in m1 ensures m1[k] == m2[k] {
      if k != id {
        assert k in h1.limits;
      }
    }
  }

  lemma UnderTrans(a: Path, b: Path, c: Path)
    requires Under(a, b) && Under(b, c)
    ensures Under(a, c)
  {
    assert c[..|a|] == c[..|b|][..|a|];
  }

  /** Two paths above the same path: one lies at or below the other. */
  lemma UnderBoth(a: Path, b: Path, q: Path)
    requires Under(a, q) && Under(b, q)
    ensures Under(a, b) || Under(b, a)
  {
    if |a| <= |b| {
      assert b[..|a|] == q[..|b|][..|a|];
    } else {
      assert a[..|b|] == q[..|a|][..|b|];
    }
  }

  /** A change within `a` and within `b`, itself within `a`, is a change within `a`. */
  lemma SameOutsideWithin(h1: Host, h2: Host, a: Path, b: Path)
    requires Under(a, b) && SameOutside(h1, h2, a, b)
    ensures SameOutside(h1, h2, a, a)
  {
    forall q | !Under(a, q)
      ensures !Under(b, q)
    {
      if Under(b, q) {
        UnderTrans(a, b, q);
      }
    }
  }

  /** Only `a` itself, `b` itself and what lies at or below `c` differ between h1 and h2. */
  ghost predicate SameBesides(h1: Host, h2: Host, a: Path, b: Path, c: Path)
  {
    && h1.quotaCapable == h2.quotaCapable
    && (forall q :: q != a && q != b && !Under(c, q) ==> At(h1, q) == At(h2, q))
  }

  /** Only path `a` differs between h1 and h2. */
  ghost predicate OnlyAt(h1: Host, h2: Host, a: Path)
  {
    && h1.quotaCapable == h2.quotaCapable
    && (forall q :: q != a ==> At(h1, q) == At(h2, q))
  }

  lemma SameOutsideBesides(h1: Host, h2: Host, b: Path, c: Path)
    requires SameOutside(h1, h2, c, c)
    ensures SameBesides(h1, h2, b, b, c)
  {
  }

  /** A change at `a`, then one at `b` and below `c`. */
  lemma SameBesidesChain(h1: Host, h2: Host, h3: Host, a: Path, b: Path, c: Path)
    requires OnlyAt(h1, h2, a) && SameBesides(h2, h3, b, b, c)
    ensures SameBesides(h1, h3, a, b, c)
  {
  }

  /** The listed paths hold the listed contents, in order. */
  ghost predicate Holds(h: Host, ps: seq<Path>, contents: seq<Tree>)
  {
    && |ps| <= |contents|
    && (forall j :: 0 <= j < |ps| ==> At(h, ps[j]).0 == Some(contents[j]))
  }

  /** Holds survives a change that keeps the listed paths, and extends to a
      new path holding the next contents. */
  lemma HoldsStep(h1: Host, h2: Host, ps: seq<Path>, contents: seq<Tree>, p: Path)
    requires Holds(h1, ps, contents) && |ps| < |contents|
    requires forall j :: 0 <= j < |ps| ==> At(h1, ps[j]) == At(h2, ps[j])
    requires At(h2, p).0 == Some(contents[|ps|])
    ensures Holds(h2, ps + [p], contents)
  {
  }

  lemma SameBesidesKeeps(h1: Host, h2: Host, a: Path, b: Path, c: Path, qs: seq<Path>)
    requires SameBesides(h1, h2, a, b, c)
    requires forall j :: 0 <= j < |qs| ==> qs[j] != a && qs[j] != b && !Under(c, qs[j])
    ensures forall j :: 0 <= j < |qs| ==> At(h1, qs[j]) == At(h2, qs[j])
  {
  }

  /** Holds survives a change besides `a`, `b` and below `c` that keeps the
      listed paths apart, and extends to `c` when `c` holds the next contents. */
  lemma HoldsExtend(h1: Host, h2: Host, a: Path, b: Path, c: Path, ps: seq<Path>, contents: seq<Tree>, extend: bool)
    requires SameBesides(h1, h2, a, b, c) && Holds(h1, ps, contents) && |ps| < |contents|
    requires forall j :: 0 <= j < |ps| ==> ps[j] != a && ps[j] != b && !Under(c, ps[j])
    requires extend ==> At(h2, c).0 == Some(contents[|ps|])
    ensures Holds(h2, ps, contents)
    ensures extend ==> Holds(h2, ps + [c], contents)
  {
    SameBesidesKeeps(h1, h2, a, b, c, ps);
    if extend {
      HoldsStep(h1, h2, ps, contents, c);
    }
  }

  /** Holds survives a change at a path it does not list. */
  lemma HoldsOnlyAt(h1: Host, h2: Host, a: Path, ps: seq<Path>, contents: seq<Tree>)
    requires Holds(h1, ps, contents) && OnlyAt(h1, h2, a)
    requires forall j :: 0 <= j < |ps| ==> ps[j] != a
    ensures Holds(h2, ps, contents)
  {
    forall j | 0 <= j < |ps|
      ensures At(h2, ps[j]).0 == Some(contents[j])
    {
      assert At(h1, ps[j]) == At(h2, ps[j]);
    }
  }

  /** Only the contents at path `a` differ between h1 and h2. */
  ghost predicate FsOnlyAt(h1: Host, h2: Host, a: Path)
  {
    forall q :: q != a ==> At(h1, q).0 == At(h2, q).0
  }

  /** Holds survives a change of contents at a path it does not list. */
  lemma HoldsFsOnlyAt(h1: Host, h2: Host, a: Path, ps: seq<Path>, contents: seq<Tree>)
    requires FsOnlyAt(h1, h2, a)
    requires forall j :: 0 <= j < |ps| ==> ps[j] != a
    ensures Holds(h1, ps, contents) ==> Holds(h2, ps, contents)
  {
    if Holds(h1, ps, contents) {
      forall j | 0 <= j < |ps|
        ensures At(h2, ps[j]).0 == Some(contents[j])
      {
        assert At(h1, ps[j]).0 == At(h2, ps[j]).0;
      }
    }
  }

  /** The host once directory `p` exists: an existing one is kept as it is. */
  function WithDir(h: Host, p: Path): Host
  {
    if p in h.fs then h else h.(fs := h.fs[p := []])
  }

  function Fail(h: Host, s: Step): Outcome
  {
    Outcome(h, Some(Failed(s)))
  }

  function Done(h: Host): Outcome
  {
    Outcome(h, None)
  }

  /** Creating a directory (CreateMountPath, os.MkdirAll, the parent snapshot
      directory): an existing directory keeps its contents. */
  function MakeDir(h: Host, s: Step, fails: Step -> bool): (r: Outcome)
    requires s.MakeMountPath? || s.MakeDirAll? || s.MakeParentSnapshotDir?
    ensures r.err.Some? <==> fails(s)
    ensures r.err.Some? ==> r == Fail(h, s)
    ensures r.err.None? ==> r.host == WithDir(h, s.path)
    ensures r.err.None? ==> s.path in r.host.fs && r.host.fs.Keys == h.fs.Keys + {s.path}
    ensures forall q :: q in h.fs ==> r.host.fs[q] == h.fs[q]
    ensures r.host.project == h.project && r.host.limits == h.limits
    ensures SameOutside(h, r.host, s.path, s.path) && OnlyAt(h, r.host, s.path)
  {
    if fails(s) then Fail(h, s)
    else if s.path in h.fs then Done(h)
    else Done(h.(fs := h.fs[s.path := []]))
  }

  /** os.RemoveAll: removes `p` and everything below it, with their quota projects. */
  function RemoveAll(h: Host, p: Path, fails: Step -> bool): (r: Outcome)
    ensures r.err.Some? <==> fails(RemovePath(p))
    ensures r.err.Some? ==> r == Fail(h, RemovePath(p))
    ensures r.err.None? ==> Absent(r.host, p)
    ensures SameOutside(h, r.host, p, p) && r.host.limits == h.limits
    ensures r.host.fs.Keys <= h.fs.Keys && r.host.project.Keys <= h.project.Keys
    ensures forall q :: q in r.host.fs ==> r.host.fs[q] == h.fs[q]
  {
    if fails(RemovePath(p)) then Fail(h, RemovePath(p))
    else Done(h.(fs := Prune(h.fs, p), project := Prune(h.project, p)))
  }

  /** rsync.LocalCopy of the files at `src` onto `dst`; a failed copy
      changes nothing. */
  function Copy(h: Host, src: Path, dst: Path, fails: Step -> bool): (r: Outcome)
    ensures OnlyAt(h, r.host, dst)
    ensures r.err.Some? <==> src !in h.fs || fails(LocalCopy(src, dst))
    ensures r.err.Some? ==> r == Fail(h, LocalCopy(src, dst))
    ensures r.err.None? ==> r.host == h.(fs := h.fs[dst := h.fs[src]])
    ensures SameOutside(h, r.host, dst, dst) && r.host.limits == h.limits
  {
    if src !in h.fs || fails(LocalCopy(src, dst)) then Fail(h, LocalCopy(src, dst))
    else Done(h.(fs := h.fs[dst := h.fs[src]]))
  }

  /** In `h2`, the disk image inside `dst` holds what the one inside `src`
      held in `h1`, and there is none when `src` had none. */
  ghost predicate ImageMirrored(h1: Host, h2: Host, src: Path, dst: Path)
  {
    var si, di := DiskImagePath(src), DiskImagePath(dst);
    && (di in h2.fs <==> si in h1.fs)
    && (si in h1.fs ==> h2.fs[di] == h1.fs[si])
  }

  /** rsync.LocalCopy of a volume's mount path: `dst` gets the files of
      `src` and, for a block volume, the disk image inside `src` replaces
      the one inside `dst`, which goes when `src` has none. */
  function CopyContents(h: Host, src: Path, dst: Path, block: bool, fails: Step -> bool): (r: Outcome)
    ensures r.err.Some? <==> src !in h.fs || fails(LocalCopy(src, dst))
    ensures r.err.Some? ==> r == Fail(h, LocalCopy(src, dst))
    ensures !block ==> r == Copy(h, src, dst, fails)
    ensures r.err.None? ==> dst in r.host.fs && r.host.fs[dst] == h.fs[src]
    ensures r.err.None? && block ==> ImageMirrored(h, r.host, src, dst)
    ensures SameOutside(h, r.host, dst, dst) && r.host.limits == h.limits && r.host.project == h.project
    ensures SameBesides(h, r.host, dst, DiskImagePath(dst), DiskImagePath(dst))
    ensures r.host.fs.Keys <= h.fs.Keys + {dst} + (if block then {DiskImagePath(dst)} else {})
  {
    var copied := Copy(h, src, dst, fails);
    if !block || copied.err.Some? then copied
    else
      var si, di := DiskImagePath(src), DiskImagePath(dst);
      var fs := if si in h.fs then copied.host.fs[di := h.fs[si]] else copied.host.fs - {di};
      Done(copied.host.(fs := fs))
  }

  /** An external step that puts `t` at an existing or new path `p`. */
  function Put(h: Host, p: Path, t: Tree, s: Step, fails: Step -> bool): (r: Outcome)
    ensures r.err.Some? <==> fails(s)
    ensures r.err.Some? ==> r == Fail(h, s)
    ensures r.err.None? ==> r.host == h.(fs := h.fs[p := t])
    ensures SameOutside(h, r.host, p, p) && r.host.limits == h.limits
  {
    if fails(s) then Fail(h, s) else Done(h.(fs := h.fs[p := t]))
  }

  /** The paths `dir + [l]` for the labels `l` of `entries`, with their trees. */
  function BelowMap(dir: Path, entries: map<string, Tree>): (m: map<Path, Tree>)
    ensures forall l :: l in entries ==> dir + [l] in m && m[dir + [l]] == entries[l]
    ensures forall q :: q in m ==> |q| == |dir| + 1 && q[..|dir|] == dir && q[|dir|] in entries
  {
    var below := set l | l in entries :: dir + [l];
    assert forall q :: q in below ==> |q| == |dir| + 1 && q == dir + [q[|dir|]] && q[|dir|] in entries;
    var m := map q | q in below :: entries[q[|dir|]];
    assert forall l :: l in entries ==> dir + [l] in below && (dir + [l])[|dir|] == l;
    m
  }

  /** An external step that puts each `entries[l]` at `dir + [l]`, leaving
      `dir` itself as it is: an extraction of named directories into `dir`. */
  function PutBelow(h: Host, dir: Path, entries: map<string, Tree>, s: Step, fails: Step -> bool): (r: Outcome)
    ensures r.err.Some? <==> fails(s)
    ensures r.err.Some? ==> r == Fail(h, s)
    ensures r.err.None? ==> forall l :: l in entries ==> dir + [l] in r.host.fs && r.host.fs[dir + [l]] == entries[l]
    ensures r.err.None? ==> Entries(r.host, dir) == Entries(h, dir) + entries.Keys
    ensures r.err.None? ==> h.fs.Keys <= r.host.fs.Keys && (dir in h.fs ==> r.host.fs[dir] == h.fs[dir])
    ensures SameOutside(h, r.host, dir, dir) && r.host.limits == h.limits && r.host.project == h.project
  {
    if fails(s) then Fail(h, s)
    else
      var added := BelowMap(dir, entries);
      BelowMapOutside(h, dir, entries);
      BelowMapEntries(h, dir, entries);
      Done(h.(fs := h.fs + added))
  }

  /** Adding BelowMap(dir, entries) changes nothing outside `dir`, nor `dir` itself. */
  lemma BelowMapOutside(h: Host, dir: Path, entries: map<string, Tree>)
    ensures var h' := h.(fs := h.fs + BelowMap(dir, entries));
      SameOutside(h, h', dir, dir) && (dir in h.fs ==> h'.fs[dir] == h.fs[dir])
  {
    var added := BelowMap(dir, entries);
    forall q | !Under(dir, q)
      ensures q !in added
    {
    }
    assert dir !in added;
  }

  /** Adding BelowMap(dir, entries) adds exactly the labels of `entries` to
      the listing of `dir`. */
  lemma BelowMapEntries(h: Host, dir: Path, entries: map<string, Tree>)
    ensures Entries(h.(fs := h.fs + BelowMap(dir, entries)), dir) == Entries(h, dir) + entries.Keys
  {
    var added := BelowMap(dir, entries);
    var h' := h.(fs := h.fs + added);
    forall l
      ensures l in Entries(h', dir) <==> l in Entries(h, dir) + entries.Keys
    {
      assert dir + [l] in added ==> (dir + [l])[|dir|] == l;
    }
  }

  /** `q` lies outside every path of `paths`. */
  ghost predicate OutsideAll(paths: seq<Path>, q: Path)
  {
    forall k :: 0 <= k < |paths| ==> !Under(paths[k], q)
  }

  /** h1 and h2 agree on every path outside all of `paths`. */
  ghost predicate SameOutsideAll(h1: Host, h2: Host, paths: seq<Path>)
  {
    && h1.quotaCapable == h2.quotaCapable
    && (forall q :: OutsideAll(paths, q) ==> At(h1, q) == At(h2, q))
  }

  /** SameOutsideAll over one or two paths is SameOutside. */
  lemma SameOutsideAllPaths(h1: Host, h2: Host, a: Path, b: Path)
    ensures SameOutsideAll(h1, h2, [a]) ==> SameOutside(h1, h2, a, a)
    ensures SameOutsideAll(h1, h2, [a, b]) ==> SameOutside(h1, h2, a, b)
  {
    forall q | !Under(a, q) ensures OutsideAll([a], q) {
    }
    forall q | !Under(a, q) && !Under(b, q) ensures OutsideAll([a, b], q) {
    }
  }

  /** `dst` in h2 holds what `src` held in h1. */
  ghost predicate Mirrors(h1: Host, h2: Host, src: Path, dst: Path)
  {
    src in h1.fs && dst in h2.fs && h2.fs[dst] == h1.fs[src]
  }

  /** rsync.Recv of the k-th transfer of `incoming` into `path`; a stream
      that has no k-th transfer fails. */
  function Recv(h: Host, path: Path, incoming: seq<Tree>, k: nat, fails: Step -> bool): (r: Outcome)
    ensures r.err.Some? <==> k >= |incoming| || fails(Receive(k))
    ensures r.err.Some? ==> r == Fail(h, Receive(k))
    ensures r.err.None? ==> r.host == h.(fs := h.fs[path := incoming[k]])
    ensures OnlyAt(h, r.host, path) && SameOutside(h, r.host, path, path)
    ensures r.host.limits == h.limits && r.host.project == h.project
  {
    if k >= |incoming| || fails(Receive(k)) then Fail(h, Receive(k))
    else Done(h.(fs := h.fs[path := incoming[k]]))
  }

  /** quota.SetProject: attaches project `id` to the existing path `p`. */
  function SetProjectOf(h: Host, p: Path, id: uint32, fails: Step -> bool): (r: Outcome)
    ensures r.err.Some? <==> p !in h.fs || fails(SetProject(p, id))
    ensures r.err.Some? ==> r == Fail(h, SetProject(p, id))
    ensures r.err.None? ==> r.host == h.(project := h.project[p := id])
  {
    if p !in h.fs || fails(SetProject(p, id)) then Fail(h, SetProject(p, id))
    else Done(h.(project := h.project[p := id]))
  }

  /** quota.SetProjectQuota: sets the byte limit of project `id` on the
      filesystem holding the existing path `p`. */
  function SetProjectLimit(h: Host, p: Path, id: uint32, bytes: int, fails: Step -> bool): (r: Outcome)
    ensures r.err.Some? <==> p !in h.fs || fails(SetProjectQuota(p, id, bytes))
    ensures r.err.Some? ==> r == Fail(h, SetProjectQuota(p, id, bytes))
    ensures r.err.None? ==> r.host == h.(limits := h.limits[id := bytes])
  {
    if p !in h.fs || fails(SetProjectQuota(p, id, bytes)) then Fail(h, SetProjectQuota(p, id, bytes))
    else Done(h.(limits := h.limits[id := bytes]))
  }

  /** Nothing exists strictly below `dir`. */
  predicate NoEntries(h: Host, dir: Path)
  {
    forall q | q in h.fs :: Under(dir, q) ==> q == dir
  }

  /** Nothing exists strictly below `dir`, and nothing at or below it
      carries a quota project. */
  ghost predicate NothingBelow(h: Host, dir: Path)
  {
    && NoEntries(h, dir)
    && (forall q :: q in h.project ==> !Under(dir, q))
  }

  /** Nothing exists strictly below `dir` except at or below `p`. */
  ghost predicate NoEntriesBesides(h: Host, dir: Path, p: Path)
  {
    forall q :: q in h.fs && Under(dir, q) ==> q == dir || Under(p, q)
  }

  /** The labels of the entries directly below `dir` (the snapshot listing). */
  function Entries(h: Host, dir: Path): (r: set<string>)
    ensures forall s :: s in r <==> dir + [s] in h.fs
  {
    var r := set q | q in h.fs && |q| == |dir| + 1 && q[..|dir|] == dir :: q[|dir|];
    assert forall q :: q in h.fs && |q| == |dir| + 1 && q[..|dir|] == dir ==> q == dir + [q[|dir|]];
    r
  }

  /** `dir` exists and holds nothing: no files of its own and no entry below it. */
  predicate EmptyDir(h: Host, dir: Path)
  {
    dir in h.fs && h.fs[dir] == [] && NoEntries(h, dir)
  }

  /** deleteParentSnapshotDirIfEmpty: removes `dir` when it exists and holds nothing. */
  function DropDirIfEmpty(h: Host, dir: Path, fails: Step -> bool): (r: Outcome)
    ensures r.err.Some? <==> fails(DropParentSnapshotDir(dir))
    ensures r.err.Some? ==> r == Fail(h, DropParentSnapshotDir(dir))
    ensures r.err.None? && EmptyDir(h, dir) ==> Absent(r.host, dir)
    ensures r.err.None? && !EmptyDir(h, dir) ==> r.host == h
    ensures SameOutside(h, r.host, dir, dir) && r.host.limits == h.limits
    ensures r.host.fs.Keys <= h.fs.Keys && r.host.project.Keys <= h.project.Keys
  {
    if fails(DropParentSnapshotDir(dir)) then Fail(h, DropParentSnapshotDir(dir))
    else if EmptyDir(h, dir) then
      var fs := h.fs - {dir};
      var project := Prune(h.project, dir);
      assert forall q :: q in fs ==> q in h.fs && q != dir;
      Done(h.(fs := fs, project := project))
    else Done(h)
  }
}
