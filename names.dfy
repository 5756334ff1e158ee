/** Snapshot names: a snapshot of volume `parent` labelled `snap` is named
    "parent/snap". Splitting happens at the first '/'. */
module Names {

  const Delimiter: char := '/'

  /** Index of the first delimiter in `s`, or |s| when there is none. */
  function FirstDelimiter(s: string): (i: nat)
    ensures i <= |s|
    ensures forall j :: 0 <= j < i ==> s[j] != Delimiter
    ensures i < |s| ==> s[i] == Delimiter
  {
    if s == [] then 0
    else if s[0] == Delimiter then 0
    else 1 + FirstDelimiter(s[1..])
  }

  /** The name of snapshot `snap` of volume `parent`. */
  function SnapshotVolumeName(parent: string, snap: string): string
  {
    parent + [Delimiter] + snap
  }

  predicate IsSnapshotName(name: string)
  {
    Delimiter in name
  }

  /** Splits a name into (parent, snap, isSnapshot). A name without a
      delimiter is its own parent, with an empty snapshot part. */
  function ParentAndSnapshotName(name: string): (r: (string, string, bool))
    ensures r.2 <==> IsSnapshotName(name)
    ensures r.2 ==> SnapshotVolumeName(r.0, r.1) == name && Delimiter !in r.0
    ensures !r.2 ==> r.0 == name && r.1 == ""
  {
    var i := FirstDelimiter(name);
    if i == |name| then
      assert forall j :: 0 <= j < |name| ==> name[j] != Delimiter;
      (name, "", false)
    else
      assert name == name[..i] + [Delimiter] + name[i + 1..];
      (name[..i], name[i + 1..], true)
  }

  lemma {:induction false} FirstDelimiterOfJoin(parent: string, snap: string)
    requires Delimiter !in parent
    ensures FirstDelimiter(parent + [Delimiter] + snap) == |parent|
  {
    if parent != [] {
      assert (parent + [Delimiter] + snap)[1..] == parent[1..] + [Delimiter] + snap;
      FirstDelimiterOfJoin(parent[1..], snap);
    }
  }

  /** Splitting a joined snapshot name gives back its two parts. */
  lemma SplitJoin(parent: string, snap: string)
    requires Delimiter !in parent
    ensures ParentAndSnapshotName(SnapshotVolumeName(parent, snap)) == (parent, snap, true)
  {
    var n := SnapshotVolumeName(parent, snap);
    FirstDelimiterOfJoin(parent, snap);
    assert n[..|parent|] == parent;
    assert n[|parent| + 1..] == snap;
  }

  /** Distinct (parent, snap) pairs give distinct snapshot names. */
  lemma SnapshotNameInjective(p1: string, s1: string, p2: string, s2: string)
    requires Delimiter !in p1 && Delimiter !in p2
    requires SnapshotVolumeName(p1, s1) == SnapshotVolumeName(p2, s2)
    ensures p1 == p2 && s1 == s2
  {
    SplitJoin(p1, s1);
    SplitJoin(p2, s2);
  }

  /** A snapshot of `name` has the same parent as `name` itself; its
      snapshot part is the label, after `name`'s own snapshot part if any. */
  lemma SnapshotOfName(name: string, snap: string)
    ensures var (p, s, isSnapshot) := ParentAndSnapshotName(SnapshotVolumeName(name, snap));
      && isSnapshot && p == ParentAndSnapshotName(name).0
      && s == (if IsSnapshotName(name) then SnapshotVolumeName(ParentAndSnapshotName(name).1, snap) else snap)
  {
    var (p0, s0, isSnapshot0) := ParentAndSnapshotName(name);
    if isSnapshot0 {
      assert SnapshotVolumeName(name, snap) == SnapshotVolumeName(p0, SnapshotVolumeName(s0, snap));
      SplitJoin(p0, SnapshotVolumeName(s0, snap));
    } else {
      SplitJoin(name, snap);
    }
  }

  /** Distinct labels give distinct snapshot names. */
  lemma SnapshotLabelInjective(name: string, l1: string, l2: string)
    requires SnapshotVolumeName(name, l1) == SnapshotVolumeName(name, l2)
    ensures l1 == l2
  {
    assert l1 == SnapshotVolumeName(name, l1)[|name| + 1..];
    assert l2 == SnapshotVolumeName(name, l2)[|name| + 1..];
  }
}
