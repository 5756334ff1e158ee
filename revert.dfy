/** The rollback discipline of CreateVolume: cleanups are registered as they
    become necessary and, on failure, run last-registered first, the way Go
    runs deferred functions. Their own errors are ignored. */
module Revert {
  import opened Types
  import opened Layout
  import opened HostFs
  import opened Quota

  datatype Undo =
    | UndoRemovePath(path: Path)
    | UndoDeleteQuota(path: Path, volID: int64)

  function ApplyUndo(h: Host, u: Undo, fails: Step -> bool): Host
  {
    match u
    case UndoRemovePath(p) => RemoveAll(h, p, fails).host
    case UndoDeleteQuota(p, id) => DeleteQuota(h, p, id, fails).host
  }

  /** The host after running the registered cleanups, last one first. */
  function Unwound(h: Host, undo: seq<Undo>, fails: Step -> bool): Host
    decreases |undo|
  {
    if undo == [] then h
    else Unwound(ApplyUndo(h, undo[|undo| - 1], fails), undo[..|undo| - 1], fails)
  }

  function Reverse<T>(s: seq<T>): (r: seq<T>)
    ensures |r| == |s|
    ensures forall i :: 0 <= i < |s| ==> r[i] == s[|s| - 1 - i]
  {
    if s == [] then [] else Reverse(s[1..]) + [s[0]]
  }

  /** Runs the deferred cleanups; `ran` lists them in the order they ran. */
  method RunUndo(h: Host, undo: seq<Undo>, fails: Step -> bool) returns (h': Host, ran: seq<Undo>)
    ensures h' == Unwound(h, undo, fails)
    ensures ran == Reverse(undo)
  {
    var i := |undo|;
    h', ran := h, [];
    assert undo[..i] == undo;
    while i > 0
      invariant 0 <= i <= |undo|
      invariant Unwound(h', undo[..i], fails) == Unwound(h, undo, fails)
      invariant ran == Reverse(undo[i..])
    {
      assert undo[..i][..i - 1] == undo[..i - 1];
      assert undo[i - 1..][1..] == undo[i..];
      h' := ApplyUndo(h', undo[i - 1], fails);
      ran := ran + [undo[i - 1]];
      i := i - 1;
    }
    assert undo[..0] == [];
  }

  /** Removing the path alone wipes everything a call made below it. */
  lemma UnwindPath(h0: Host, h: Host, path: Path, fails: Step -> bool)
    requires SameOutside(h0, h, path, path) && !fails(RemovePath(path))
    ensures var r := Unwound(h, [UndoRemovePath(path)], fails);
      Absent(r, path) && SameOutside(h0, r, path, path) && r.limits == h.limits
  {
    assert [UndoRemovePath(path)][..0] == [];
    var r := RemoveAll(h, path, fails).host;
    SameOutsideTrans(h0, h, r, path, path);
  }

  /** Deleting the quota first, then the path: the project limit is zeroed
      (the path still exists when deleteQuota runs) and the path is gone. */
  lemma UnwindQuotaThenPath(h0: Host, h: Host, path: Path, volID: int64, fails: Step -> bool)
    requires SameOutside(h0, h, path, path)
    requires volID != 0 && path in h.fs && CleanupSucceeds(fails, path, volID)
    ensures var r := Unwound(h, [UndoRemovePath(path), UndoDeleteQuota(path, volID)], fails);
      && Absent(r, path) && SameOutside(h0, r, path, path)
      && r.limits == (if path in h.quotaCapable then h.limits[ProjectID(volID) := 0] else h.limits)
  {
    var u := [UndoRemovePath(path), UndoDeleteQuota(path, volID)];
    assert u[..1] == [UndoRemovePath(path)];
    var d := DeleteQuota(h, path, volID, fails).host;
    SameOutsideTrans(h0, h, d, path, path);
    UnwindPath(h0, d, path, fails);
  }

  /** In the opposite order the limit survives: deleteQuota finds the path
      gone, the quota-support check fails, and it returns without a change. */
  lemma PathThenQuotaKeepsLimit(h: Host, path: Path, volID: int64, fails: Step -> bool)
    requires volID != 0 && path in h.quotaCapable && !fails(RemovePath(path))
    ensures var r := Unwound(h, [UndoDeleteQuota(path, volID), UndoRemovePath(path)], fails);
      r.limits == h.limits
  {
    var u := [UndoDeleteQuota(path, volID), UndoRemovePath(path)];
    assert u[..1] == [UndoDeleteQuota(path, volID)];
    assert [UndoDeleteQuota(path, volID)][..0] == [];
    var removed := RemoveAll(h, path, fails).host;
    assert Under(path, path);
    assert path !in removed.fs;
    assert Unwound(h, u, fails) == Unwound(removed, u[..1], fails);
    assert Unwound(removed, u[..1], fails) == DeleteQuota(removed, path, volID, fails).host;
  }
}
